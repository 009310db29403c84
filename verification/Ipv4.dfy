// IPv4 addresses and CIDR prefixes, as numbers.
module Ipv4 {

  /** A 32-bit address. */
  type Addr = a: nat | a < 0x1_0000_0000

  /** A prefix is given by its leading `len` bits, so two prefixes of one length that share an
      address are the same value. `::/0` only ever appears in an exit peer's AllowedIPs. `Malformed`
      stands for text that is no prefix at all, such as the rule source of a device without an
      address, which `ip rule add` refuses. */
  datatype Prefix = Prefix(net: nat, len: nat) | Ipv6Default | Malformed

  function Pow2(n: nat): (r: nat)
    ensures r >= 1
  {
    if n == 0 then 1 else 2 * Pow2(n - 1)
  }

  /** How many addresses a prefix of this length holds. */
  function Size(len: nat): (r: nat)
    requires len <= 32
    ensures r >= 1
  {
    Pow2(32 - len)
  }

  predicate Contains(p: Prefix, a: Addr) {
    p.Prefix? && p.len <= 32 && a / Size(p.len) == p.net
  }

  function Octets(a: nat, b: nat, c: nat, d: nat): Addr
    requires a < 256 && b < 256 && c < 256 && d < 256
  {
    a * 0x100_0000 + b * 0x1_0000 + c * 0x100 + d
  }

  function Host(a: Addr): Prefix { Prefix(a, 32) }

  const DEFAULT_ROUTE := Prefix(0, 0)

  ghost predicate Disjoint(p: Prefix, q: Prefix) {
    forall a: Addr :: !(Contains(p, a) && Contains(q, a))
  }

  ghost predicate Within(p: Prefix, q: Prefix) {
    forall a: Addr :: Contains(p, a) ==> Contains(q, a)
  }

  lemma Sizes()
    ensures Size(0) == 0x1_0000_0000 && Size(8) == 0x100_0000 && Size(16) == 0x1_0000
    ensures Size(17) == 0x8000 && Size(24) == 0x100 && Size(32) == 1
    ensures Pow2(24) == 0x100_0000 && Pow2(32) == 0x1_0000_0000
  {
    assert Pow2(8) == 0x100;
    assert Pow2(15) == 0x8000;
    Pow2Adds(8, 8);
    Pow2Adds(16, 8);
    Pow2Adds(16, 16);
  }

  lemma {:induction false} Pow2Adds(m: nat, n: nat)
    ensures Pow2(m + n) == Pow2(m) * Pow2(n)
  {
    if m == 0 {
    } else {
      Pow2Adds(m - 1, n);
    }
  }

  lemma Distributes(a: int, b: int, s: int)
    ensures (a + b) * s == a * s + b * s
  {
  }

  lemma Associates(a: int, b: int, s: int)
    ensures a * (b * s) == (a * b) * s
  {
  }

  lemma MulMono(a: nat, b: nat, s: nat)
    requires a <= b
    ensures a * s <= b * s
  {
    Distributes(b - a, a, s);
    assert (b - a) * s >= 0;
  }

  /** Quotient and remainder are determined by what they put together. */
  lemma DivModOf(x: nat, q: nat, r: nat, s: nat)
    requires r < s && x == q * s + r
    ensures x / s == q && x % s == r
  {
    var d := x / s;
    assert d * s <= x < d * s + s;
    Distributes(q, 1, s);
    Distributes(d, 1, s);
    if q < d {
      MulMono(q + 1, d, s);
    } else if d < q {
      MulMono(d + 1, q, s);
    }
  }

  /** Reducing modulo a multiple `n` of `k` first changes nothing. */
  lemma ModOfMod(x: nat, k: nat, m: nat, n: nat)
    requires k >= 1 && n >= 1 && n == m * k
    ensures (x % n) % k == x % k
  {
    var q, r := x / n, x % n;
    var c, t := r / k, r % k;
    Associates(q, m, k);
    Distributes(q * m, c, k);
    assert q * m >= 0;
    DivModOf(x, q * m + c, t, k);
  }
}
