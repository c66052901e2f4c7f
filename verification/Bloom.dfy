/** The hand-written bloom filter (internal/bloom/bloom.go): an array of bytes holding m bits, k
    positions per key derived from two FNV-1a hashes. */
module Bloom {
  import opened Model

  const FNV_OFFSET: nat := 14695981039346656037
  const FNV_PRIME: nat := 1099511628211
  const SALT: Byte := 0x9e

  function XorByte(a: Byte, b: Byte): Byte {
    ((a as bv8) ^ (b as bv8)) as int
  }

  /** One FNV-1a round: xor the byte into the low eight bits, multiply modulo 2^64. */
  function Fnv1a(h: nat, b: Byte): nat {
    ((h - h % 256 + XorByte(h % 256, b)) * FNV_PRIME) % TWO64
  }

  function Fnv(data: seq<Byte>): nat {
    if data == [] then FNV_OFFSET else Fnv1a(Fnv(data[..|data| - 1]), data[|data| - 1])
  }

  /** doubleHash: the second hash is salted and never zero before it is reduced. */
  function Hashes(data: seq<Byte>, m: nat): (nat, nat)
    requires m > 0
  {
    var h2 := Fnv(data + [SALT]);
    (Fnv(data) % m, (if h2 == 0 then 1 else h2) % m)
  }

  /** The i-th position, in uint64 arithmetic. */
  function Position(h: (nat, nat), i: nat, m: nat): (p: nat)
    requires m > 0
    ensures p < m
  {
    ((h.0 + i * h.1) % TWO64) % m
  }

  /** The positions of a key, the first k of its probe sequence. */
  function Positions(data: seq<Byte>, m: nat, k: nat): set<nat>
    requires m > 0
  {
    set i | 0 <= i < k :: Position(Hashes(data, m), i, m)
  }

  /** The union of the positions of all added keys. */
  function AllPositions(keys: seq<seq<Byte>>, m: nat, k: nat): set<nat>
    requires m > 0
  {
    if keys == [] then {} else AllPositions(keys[..|keys| - 1], m, k) + Positions(keys[|keys| - 1], m, k)
  }

  /** What Test answers for `data` once `keys` were added. */
  predicate Passes(keys: seq<seq<Byte>>, data: seq<Byte>, m: nat, k: nat)
    requires m > 0
  {
    Positions(data, m, k) <= AllPositions(keys, m, k)
  }

  // ---------- Bits ----------

  function BitOf(b: bv8, j: nat): bool
    requires j < 8
  {
    b & ((1 as bv8) << (j as bv4)) != 0
  }

  function WithBit(b: bv8, j: nat): bv8
    requires j < 8
  {
    b | ((1 as bv8) << (j as bv4))
  }

  /** Setting bit j changes bit j only. */
  lemma SetBit(b: bv8, j: nat, i: nat)
    requires j < 8 && i < 8
    ensures BitOf(WithBit(b, j), i) == (BitOf(b, i) || i == j)
  {
    assert j in {0, 1, 2, 3, 4, 5, 6, 7} && i in {0, 1, 2, 3, 4, 5, 6, 7};
  }

  /** Bit p of a byte array, numbered as set and get do. */
  predicate BitAt(bits: seq<bv8>, p: nat)
    requires p / 8 < |bits|
  {
    BitOf(bits[p / 8], p % 8)
  }

  lemma UpdateAt(bits: seq<bv8>, p: nat, q: nat)
    requires p / 8 < |bits| && q / 8 < |bits|
    ensures BitAt(bits[p / 8 := WithBit(bits[p / 8], p % 8)], q) == (BitAt(bits, q) || q == p)
  {
    if p / 8 == q / 8 {
      SetBit(bits[p / 8], p % 8, q % 8);
    }
  }

  class Filter {
    const bits: array<bv8>
    const m: nat
    const k: nat
    ghost var added: seq<seq<Byte>>

    /** The array holds exactly the union of the positions of the added keys. */
    ghost predicate Valid()
      reads this, bits
    {
      && m > 0 && k > 0
      && bits.Length == (m + 7) / 8
      && forall p: nat :: p < m ==> (BitAt(bits[..], p) <==> p in AllPositions(added, m, k))
    }

    /** New, after the sizing formula has chosen m and k. */
    constructor (m: nat, k: nat)
      requires m > 0 && k > 0
      ensures Valid() && added == [] && this.m == m && this.k == k && fresh(bits)
    {
      this.m := m;
      this.k := k;
      this.bits := new bv8[(m + 7) / 8](_ => 0);
      this.added := [];
    }

    method Set(p: nat)
      requires m > 0 && bits.Length == (m + 7) / 8 && p < m
      modifies bits
      ensures forall q: nat :: q < m ==> BitAt(bits[..], q) == (old(BitAt(bits[..], q)) || q == p)
    {
      bits[p / 8] := WithBit(bits[p / 8], p % 8);
      assert bits[..] == old(bits[..])[p / 8 := WithBit(old(bits[..])[p / 8], p % 8)];
      forall q: nat | q < m ensures BitAt(bits[..], q) == (old(BitAt(bits[..], q)) || q == p) {
        UpdateAt(old(bits[..]), p, q);
      }
    }

    method Get(p: nat) returns (b: bool)
      requires m > 0 && bits.Length == (m + 7) / 8 && p < m
      ensures b == BitAt(bits[..], p)
    {
      b := bits[p / 8] & ((1 as bv8) << ((p % 8) as bv4)) != 0;
    }

    method Add(data: seq<Byte>)
      requires Valid()
      modifies this`added, bits
      ensures Valid() && added == old(added) + [data]
    {
      var h := Hashes(data, m);
      var i := 0;
      while i < k
        invariant 0 <= i <= k
        invariant added == old(added)
        invariant forall p: nat :: p < m ==>
                    (BitAt(bits[..], p) <==> p in AllPositions(added, m, k) || p in Positions(data, m, i))
      {
        ghost var before := bits[..];
        Set(Position(h, i, m));
        NextPosition(data, m, i);
        i := i + 1;
      }
      added := added + [data];
      assert added[..|added| - 1] == old(added);
    }

    method Test(data: seq<Byte>) returns (maybe: bool)
      requires Valid()
      ensures maybe <==> Passes(added, data, m, k)
    {
      var h := Hashes(data, m);
      var i := 0;
      while i < k
        invariant 0 <= i <= k
        invariant Positions(data, m, i) <= AllPositions(added, m, k)
      {
        var p := Position(h, i, m);
        var b := Get(p);
        if !b {
          assert p in Positions(data, m, k);
          return false;
        }
        NextPosition(data, m, i);
        i := i + 1;
      }
      maybe := true;
    }
  }

  lemma NextPosition(data: seq<Byte>, m: nat, i: nat)
    requires m > 0
    ensures Positions(data, m, i + 1) == Positions(data, m, i) + {Position(Hashes(data, m), i, m)}
  {
  }

  /** Every key that was added has all its positions in the union, so Test never says no to it. */
  lemma {:induction false} NoFalseNegative(keys: seq<seq<Byte>>, i: nat, m: nat, k: nat)
    requires m > 0 && i < |keys|
    ensures Passes(keys, keys[i], m, k)
  {
    if i < |keys| - 1 {
      NoFalseNegative(keys[..|keys| - 1], i, m, k);
    }
  }

  /** A key passes exactly when the added keys cover its positions between them. */
  lemma Coverage(keys: seq<seq<Byte>>, data: seq<Byte>, m: nat, k: nat)
    requires m > 0
    ensures Passes(keys, data, m, k) <==>
            forall p :: p in Positions(data, m, k) ==> exists i :: 0 <= i < |keys| && p in Positions(keys[i], m, k)
  {
    forall p: nat ensures p in AllPositions(keys, m, k) <==>
        exists i :: 0 <= i < |keys| && p in Positions(keys[i], m, k) {
      InUnion(keys, p, m, k);
    }
  }

  lemma {:induction false} InUnion(keys: seq<seq<Byte>>, p: nat, m: nat, k: nat)
    requires m > 0
    ensures p in AllPositions(keys, m, k) <==> exists i :: 0 <= i < |keys| && p in Positions(keys[i], m, k)
  {
    if keys != [] {
      var front, last := keys[..|keys| - 1], keys[|keys| - 1];
      InUnion(front, p, m, k);
      assert p in AllPositions(keys, m, k) <==> p in AllPositions(front, m, k) || p in Positions(last, m, k);
      LastKey(keys, p, m, k);
    }
  }

  lemma LastKey(keys: seq<seq<Byte>>, p: nat, m: nat, k: nat)
    requires m > 0 && keys != []
    ensures var front, last := keys[..|keys| - 1], keys[|keys| - 1];
            (exists i :: 0 <= i < |keys| && p in Positions(keys[i], m, k)) <==>
            (exists i :: 0 <= i < |front| && p in Positions(front[i], m, k)) || p in Positions(last, m, k)
  {
    var front := keys[..|keys| - 1];
    if i :| 0 <= i < |front| && p in Positions(front[i], m, k) {
      assert p in Positions(keys[i], m, k);
    }
    if i :| 0 <= i < |keys| && p in Positions(keys[i], m, k) {
      assert i < |front| ==> p in Positions(front[i], m, k);
    }
  }

  /** Adding more keys never turns a yes into a no. */
  lemma {:induction false} StaysForever(keys: seq<seq<Byte>>, more: seq<seq<Byte>>, m: nat, k: nat)
    requires m > 0
    ensures AllPositions(keys, m, k) <= AllPositions(keys + more, m, k)
    ensures forall data :: Passes(keys, data, m, k) ==> Passes(keys + more, data, m, k)
  {
    if more == [] {
      assert keys + more == keys;
    } else {
      StaysForever(keys, more[..|more| - 1], m, k);
      assert (keys + more)[..|keys + more| - 1] == keys + more[..|more| - 1];
    }
  }

  lemma ModSmall(a: nat, m: nat)
    requires a < m
    ensures a % m == a
  {
  }

  lemma ModOnce(a: nat, m: nat)
    requires m <= a < 2 * m
    ensures a % m == a - m
  {
    assert a == m + (a - m) && 0 <= a - m < m;
  }

  lemma FirstProbe(h: (nat, nat), i: nat, m: nat)
    requires 0 < m < TWO64 && h.0 < m && (i == 0 || h.1 == 0)
    ensures Position(h, i, m) == h.0
  {
    assert i * h.1 == 0;
    ModSmall(h.0, TWO64);
    ModSmall(h.0, m);
  }

  /** In uint64 arithmetic the second probe differs from the first if the reduced second hash is not zero. */
  lemma SecondProbe(h: (nat, nat), m: nat)
    requires 0 < m < TWO64 && h.0 < m && 0 < h.1 < m
    ensures Position(h, 1, m) != h.0
  {
    var sum := h.0 + h.1;
    assert Position(h, 1, m) == (sum % TWO64) % m;
    if sum >= TWO64 {
      ModOnce(sum, TWO64);
      ModSmall(sum - TWO64, m);
    } else {
      ModSmall(sum, TWO64);
      if sum < m { ModSmall(sum, m); } else { ModOnce(sum, m); }
    }
  }

  /** The first k probes of a pair of reduced hashes. */
  function Probes(h: (nat, nat), m: nat, k: nat): set<nat>
    requires m > 0
  {
    set i | 0 <= i < k :: Position(h, i, m)
  }

  lemma ProbesCoincide(h: (nat, nat), m: nat, k: nat)
    requires 0 < m < TWO64 && k >= 2 && h.0 < m && h.1 < m
    ensures |Probes(h, m, k)| == 1 <==> h.1 == 0
  {
    var ps := Probes(h, m, k);
    assert Position(h, 0, m) in ps && Position(h, 1, m) in ps;
    if h.1 == 0 {
      forall i: nat ensures Position(h, i, m) == h.0 { FirstProbe(h, i, m); }
      assert ps == {h.0};
    } else {
      FirstProbe(h, 0, m);
      SecondProbe(h, m);
      if |ps| == 1 { OnlyMember(ps, Position(h, 0, m), Position(h, 1, m)); }
    }
  }

  lemma {:induction false} MulStep(m: nat, a: nat, b: nat)
    requires a < b
    ensures m * a + m <= m * b
  {
    if b > a + 1 { MulStep(m, a, b - 1); }
    assert m * b == m * (b - 1) + m;
  }

  lemma ModUnique(x: nat, m: nat, q: nat, r: nat)
    requires m > 0 && r < m && x == m * q + r
    ensures x % m == r
  {
    var q', r' := x / m, x % m;
    assert x == m * q' + r';
    if q < q' { MulStep(m, q, q'); } else if q' < q { MulStep(m, q', q); }
  }

  lemma ModShift(x: nat, m: nat, q: nat)
    requires m > 0
    ensures (x + m * q) % m == x % m
  {
    var p, r := x / m, x % m;
    assert x == m * p + r && m * (p + q) == m * p + m * q;
    ModUnique(x + m * q, m, p + q, r);
  }

  lemma Distribute(i: nat, m: nat, q: nat, r: nat)
    ensures i * (m * q + r) == m * (i * q) + i * r
  {
    assert i * (m * q + r) == i * (m * q) + i * r;
    assert i * (m * q) == m * (i * q);
  }

  lemma ReducedSum(a: nat, b: nat, i: nat, m: nat)
    requires m > 0
    ensures (a % m + i * (b % m)) % m == (a + i * b) % m
  {
    ReducedParts(a, b, i, m, a / m, b / m, a % m, b % m);
  }

  lemma ReducedParts(a: nat, b: nat, i: nat, m: nat, p: nat, q: nat, r: nat, t: nat)
    requires m > 0 && a == m * p + r && b == m * q + t
    ensures (r + i * t) % m == (a + i * b) % m
  {
    SumParts(m, p, q, r, t, i);
    var x, n := r + i * t, p + i * q;
    ModShift(x, m, n);
  }

  lemma SumParts(m: nat, p: nat, q: nat, r: nat, t: nat, i: nat)
    ensures (r + i * t) + m * (p + i * q) == (m * p + r) + i * (m * q + t)
  {
    Distribute(i, m, q, t);
    assert m * (p + i * q) == m * p + m * (i * q);
  }

  lemma NoWrap(r: nat, g: nat, i: nat, m: nat, k: nat)
    requires r < m && g < m && i < k && k * m <= TWO64
    ensures Position((r, g), i, m) == (r + i * g) % m
  {
    MulLess(i, g, m, k);
    ModSmall(r + i * g, TWO64);
  }

  lemma MulLess(i: nat, g: nat, m: nat, k: nat)
    requires i < k && g < m
    ensures i * g + m <= k * m
  {
    assert i * g <= i * m by { assert i * m == i * g + i * (m - g); }
    MulStep(m, i, k);
  }

  /** Plain double hashing. */
  function Probe(h1: nat, h2: nat, i: nat, m: nat): nat
    requires m > 0
  {
    (h1 + i * (if h2 == 0 then 1 else h2)) % m
  }

  /** While k times m fits in 64 bits, reducing the hashes first and wrapping change no position: they are those
      of plain double hashing, h1 + i * h2 modulo m. */
  lemma PlainDoubleHashing(data: seq<Byte>, m: nat, k: nat)
    requires m > 0 && k * m <= TWO64
    ensures Positions(data, m, k) == set i | 0 <= i < k :: Probe(Fnv(data), Fnv(data + [0x9e]), i, m)
  {
    var h1, h2 := Fnv(data), Fnv(data + [SALT]);
    forall i: nat | i < k ensures Position(Hashes(data, m), i, m) == Probe(h1, h2, i, m) {
      ProbeAt(data, h1, h2, i, m, k);
    }
  }

  lemma ProbeAt(data: seq<Byte>, h1: nat, h2: nat, i: nat, m: nat, k: nat)
    requires m > 0 && k * m <= TWO64 && i < k && h1 == Fnv(data) && h2 == Fnv(data + [SALT])
    ensures Position(Hashes(data, m), i, m) == Probe(h1, h2, i, m)
  {
    var g := if h2 == 0 then 1 else h2;
    NoWrap(h1 % m, g % m, i, m, k);
    ReducedSum(h1, g, i, m);
  }

  /** Without that bound wrapping does change positions: with m one below 2^64, from m - 1 a step of m - 1 leads to
      m - 3, not to m - 2. */
  lemma WrapMatters(m: nat)
    requires m == TWO64 - 1
    ensures Position((m - 1, m - 1), 1, m) == m - 3 && Probe(m - 1, m - 1, 1, m) == m - 2
  {
    ModUnique(2 * m - 2, TWO64, 1, m - 3);
    ModSmall(m - 3, m);
    ModUnique(2 * m - 2, m, 1, m - 2);
  }

  /** Known values of the hash. */
  lemma KnownHashes()
    ensures Fnv([]) == 0xcbf29ce484222325 && Fnv([97]) == 0xaf63dc4c8601ec8c && Fnv([97, 98]) == 0x089c4407b545986a
  {
    assert XorByte(FNV_OFFSET % 256, 97) == 68;
    assert [97][..0] == [] && [97, 98][..1] == [97];
    assert XorByte(0x8c, 98) == 0xee;
  }

  /** The guarded hash is reduced to zero exactly if m divides it. */
  lemma Reduced(h2: nat, m: nat)
    requires m > 0
    ensures (if h2 == 0 then 1 else h2) % m == 0 <==> if h2 == 0 then m == 1 else h2 % m == 0
  {
    if m > 1 { ModSmall(1, m); }
  }

  /** When the guard against a zero second hash is enough.  It comes before the reduction modulo m, so with
      two or more probes per key they all fall on one bit exactly when m divides the second hash (for the
      hash the guard replaces by one: when m is one). */
  lemma GuardIsNotEnough(data: seq<Byte>, m: nat, k: nat)
    requires 0 < m < TWO64 && k >= 2
    ensures var h2 := Fnv(data + [SALT]);
            |Positions(data, m, k)| == 1 <==> if h2 == 0 then m == 1 else h2 % m == 0
  {
    ProbesCoincide(Hashes(data, m), m, k);
    Reduced(Fnv(data + [SALT]), m);
    assert Positions(data, m, k) == Probes(Hashes(data, m), m, k);
  }

  lemma OnlyMember(s: set<nat>, a: nat, b: nat)
    requires |s| == 1 && a in s && b in s
    ensures a == b
  {
    assert |s - {a}| == 0;
  }

  /** It does happen: with three bits and two probes, what New chooses for one expected item and a false
      positive rate of a quarter, the two probes of the empty key are one. */
  lemma GuardFails()
    ensures Fnv([] + [SALT]) == 12638318042439399105 && |Positions([], 3, 2)| == 1
  {
    assert XorByte(FNV_OFFSET % 256, SALT) == 187;
    assert ([] + [SALT])[..0] == [] && Fnv([]) == FNV_OFFSET;
    GuardIsNotEnough([], 3, 2);
  }
}
