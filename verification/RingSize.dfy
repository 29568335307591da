/** Sizing the submission ring: the least power of two that holds the work, on 32-bit
    words, capped by the configured number of entries. */
module RingSize {
  /** Exactly one bit is set. */
  predicate IsPowerOfTwo(p: bv32) {
    p != 0 && p & (p - 1) == 0
  }

  ghost predicate LeastPower(n: bv32, r: bv32) {
    IsPowerOfTwo(r) && n <= r && forall p :: IsPowerOfTwo(p) && n <= p ==> r <= p
  }

  /** The bits below the highest are filled, one doubling at a time. */
  function Fill(m: bv32): bv32 {
    var a := m | (m >> 1);
    var b := a | (a >> 2);
    var c := b | (b >> 4);
    var d := c | (c >> 8);
    d | (d >> 16)
  }

  /** Half of the next word would be too small. */
  lemma FillFacts(n: bv32)
    requires n != 0
    ensures n <= 0x8000_0000 ==> IsPowerOfTwo(Fill(n - 1) + 1) && n <= Fill(n - 1) + 1
    ensures n <= 0x8000_0000 ==> Fill(n - 1) + 1 == 1 || (Fill(n - 1) + 1) >> 1 < n
    ensures n > 0x8000_0000 ==> Fill(n - 1) + 1 == 0
  {
  }

  /** A power of two of which half is too small is below every other that is enough. */
  lemma HalfTooSmall(n: bv32, r: bv32, p: bv32)
    requires 1 <= n && IsPowerOfTwo(r) && (r == 1 || r >> 1 < n)
    requires IsPowerOfTwo(p) && n <= p
    ensures r <= p
  {
  }

  /** What the bit trick computes. */
  function Next(n: bv32): bv32 {
    if n == 0 then 1 else Fill(n - 1) + 1
  }

  /** It is the least power of two at or above n as long as a word holds one, and 0
      beyond that; no work at all gets 1. */
  lemma NextIsLeast(n: bv32)
    ensures 1 <= n <= 0x8000_0000 ==> LeastPower(n, Next(n))
    ensures n > 0x8000_0000 ==> Next(n) == 0
    ensures Next(0) == 1
  {
    if n != 0 {
      FillFacts(n);
      forall p | 1 <= n <= 0x8000_0000 && IsPowerOfTwo(p) && n <= p ensures Next(n) <= p {
        HalfTooSmall(n, Next(n), p);
      }
    }
  }

  method NextPowerOfTwo(n: bv32) returns (r: bv32)
    ensures r == Next(n)
  {
    if n == 0 {
      return 1;
    }
    var m := n - 1;
    m := m | (m >> 1);
    m := m | (m >> 2);
    m := m | (m >> 4);
    m := m | (m >> 8);
    m := m | (m >> 16);
    return m + 1;
  }

  /** Rounded up first, capped after, never zero. */
  function Cap(size: bv32, entries: bv32): (c: bv32)
    ensures 1 <= c
  {
    var capped := if size > entries then entries else size;
    if capped < 1 then 1 else capped
  }

  /** The ring asked of the kernel is a power of two when the configured number of
      entries is one. The option that sets it accepts any number from 64 to 32768. */
  lemma CapKeepsPower(size: bv32, entries: bv32)
    requires size == 0 || IsPowerOfTwo(size)
    requires IsPowerOfTwo(entries)
    ensures IsPowerOfTwo(Cap(size, entries))
  {
    assert IsPowerOfTwo(1);
  }

  /** It holds all the work unless it is capped. */
  lemma CapHolds(work: bv32, size: bv32, entries: bv32)
    requires work <= size && entries != 0
    ensures work <= Cap(size, entries) || Cap(size, entries) == entries
  {
  }

  method RingSizeFor(work: bv32, entries: bv32) returns (r: bv32)
    ensures r == Cap(Next(work), entries)
  {
    r := NextPowerOfTwo(work);
    if r > entries {
      r := entries;
    }
    if r < 1 {
      r := 1;
    }
  }

  function Smaller(a: bv32, b: bv32): bv32 { if a <= b then a else b }

  /** The size is described as the smaller of work and entries, rounded up. The code
      rounds first and caps then, which is the same exactly when the configured number of
      entries is a power of two or large enough for the rounded work. */
  lemma RoundingIff(work: bv32, entries: bv32)
    requires 1 <= work <= 0x8000_0000 && 64 <= entries <= 32768
    ensures Cap(Next(work), entries) == Next(Smaller(work, entries)) <==> IsPowerOfTwo(entries) || Next(work) <= entries
  {
  }

  /** With 100 entries and 200 operations the code asks for 100, not 128. */
  lemma HundredEntries()
    ensures Cap(Next(200), 100) == 100 && Next(Smaller(200, 100)) == 128
  {
  }
}
