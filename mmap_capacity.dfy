/**
 * The sizing rule of the growable flag store: how many bytes the active
 * flags file has for a given number of flags, and how many flags fit in it.
 * Every rotation decision derives from these two functions.
 */
module MmapCapacity {

  /** Smallest flags file in debug builds: 128 bytes, i.e. 1024 flags. */
  const DEBUG_MINIMAL_MMAP_SIZE: nat := 128

  /** Smallest flags file in release builds: 1 MiB. */
  const RELEASE_MINIMAL_MMAP_SIZE: nat := 1024 * 1024

  predicate IsPowerOfTwo(n: nat)
    decreases n
  {
    n == 1 || (n >= 2 && n % 2 == 0 && IsPowerOfTwo(n / 2))
  }

  function Max(a: nat, b: nat): nat
  {
    if a < b then b else a
  }

  /** Both minimal sizes of the Rust code obey the power-of-two premise of the lemmas below. */
  lemma MinimalSizesArePowersOfTwo()
    ensures IsPowerOfTwo(DEBUG_MINIMAL_MMAP_SIZE)
    ensures IsPowerOfTwo(RELEASE_MINIMAL_MMAP_SIZE)
  {
    assert IsPowerOfTwo(1024);
    assert IsPowerOfTwo(1024 * 1024);
  }

  /** Of two distinct powers of two, the larger is at least twice the smaller. */
  lemma {:induction false} PowerOfTwoGap(p: nat, q: nat)
    requires IsPowerOfTwo(p) && IsPowerOfTwo(q) && p < q
    ensures 2 * p <= q
    decreases p
  {
    if p != 1 {
      PowerOfTwoGap(p / 2, q / 2);
    }
  }

  /** `div_ceil(a, b)`: the quotient rounded up. */
  function DivCeil(a: nat, b: nat): (r: nat)
    requires b > 0
    ensures a <= r * b < a + b
  {
    var q := (a + b - 1) / b;
    assert q * b + (a + b - 1) % b == a + b - 1;
    q
  }

  /** The smallest power of two that is at least `n`, searching upwards from `p`. */
  function PowerOfTwoAtLeast(p: nat, n: nat): (r: nat)
    requires IsPowerOfTwo(p) && (p == 1 || p / 2 < n)
    ensures IsPowerOfTwo(r) && n <= r
    ensures r == 1 || r / 2 < n
    decreases n - p
  {
    if n <= p then p else PowerOfTwoAtLeast(2 * p, n)
  }

  /** `usize::next_power_of_two`: the smallest power of two that is at least `n` (1 for 0). */
  function NextPowerOfTwo(n: nat): (r: nat)
    ensures IsPowerOfTwo(r) && n <= r
    ensures r == 1 || r / 2 < n
  {
    PowerOfTwoAtLeast(1, n)
  }

  /** No power of two at least `n` is below `NextPowerOfTwo(n)`. */
  lemma NextPowerOfTwoIsLeast(n: nat, p: nat)
    requires IsPowerOfTwo(p) && n <= p
    ensures NextPowerOfTwo(n) <= p
  {
    var r := NextPowerOfTwo(n);
    if p < r {
      PowerOfTwoGap(p, r);
    }
  }

  /** `mmap_capacity_bytes`: bytes of the flags file that holds `numFlags` flags. */
  function MmapCapacityBytes(numFlags: nat, minimalSize: nat): (bytes: nat)
    ensures bytes >= minimalSize
    ensures 8 * bytes >= numFlags
    ensures IsPowerOfTwo(minimalSize) ==> IsPowerOfTwo(bytes)
  {
    var numberOfBytes := DivCeil(numFlags, 8);
    Max(minimalSize, NextPowerOfTwo(numberOfBytes))
  }

  /**
   * The capacity is the least power of two that is at least the minimal
   * size and holds `numFlags` bits.
   */
  lemma CapacityIsLeast(numFlags: nat, minimalSize: nat, p: nat)
    requires IsPowerOfTwo(minimalSize) && IsPowerOfTwo(p)
    requires p >= minimalSize && 8 * p >= numFlags
    ensures MmapCapacityBytes(numFlags, minimalSize) <= p
  {
    NextPowerOfTwoIsLeast(DivCeil(numFlags, 8), p);
  }

  /** More flags never need a smaller file. */
  lemma CapacityMonotone(n: nat, m: nat, minimalSize: nat)
    requires IsPowerOfTwo(minimalSize) && n <= m
    ensures MmapCapacityBytes(n, minimalSize) <= MmapCapacityBytes(m, minimalSize)
  {
    CapacityIsLeast(n, minimalSize, MmapCapacityBytes(m, minimalSize));
  }

  /** The values pinned by `test_capacity`, with the 128-byte minimum. */
  lemma CapacityTestValues()
    ensures MmapCapacityBytes(0, DEBUG_MINIMAL_MMAP_SIZE) == 128
    ensures MmapCapacityBytes(1, DEBUG_MINIMAL_MMAP_SIZE) == 128
    ensures MmapCapacityBytes(1023, DEBUG_MINIMAL_MMAP_SIZE) == 128
    ensures MmapCapacityBytes(1024, DEBUG_MINIMAL_MMAP_SIZE) == 128
    ensures MmapCapacityBytes(1025, DEBUG_MINIMAL_MMAP_SIZE) == 256
    ensures MmapCapacityBytes(10000, DEBUG_MINIMAL_MMAP_SIZE) == 2048
  {
    assert DivCeil(1024, 8) == 128 && NextPowerOfTwo(128) == 128;
    assert DivCeil(1025, 8) == 129 && NextPowerOfTwo(129) == 256;
    assert DivCeil(10000, 8) == 1250 && NextPowerOfTwo(1250) == 2048;
  }

  /** The file sizes the flag-saving scenario passes through, with the 128-byte minimum. */
  lemma SavingScenarioCapacities()
    ensures MmapMaxCurrentSize(0, DEBUG_MINIMAL_MMAP_SIZE) == 1024
    ensures MmapCapacityBytes(2000, DEBUG_MINIMAL_MMAP_SIZE) == 256
    ensures MmapMaxCurrentSize(2000, DEBUG_MINIMAL_MMAP_SIZE) == 2048
    ensures MmapCapacityBytes(5000, DEBUG_MINIMAL_MMAP_SIZE) == 1024
    ensures MmapMaxCurrentSize(5000, DEBUG_MINIMAL_MMAP_SIZE) == 8192
    ensures MmapCapacityBytes(10000, DEBUG_MINIMAL_MMAP_SIZE) == 2048
  {
    assert DivCeil(2000, 8) == 250 && NextPowerOfTwo(250) == 256;
    assert DivCeil(5000, 8) == 625 && NextPowerOfTwo(625) == 1024;
    assert DivCeil(10000, 8) == 1250 && NextPowerOfTwo(1250) == 2048;
  }

  /** `mmap_max_current_size`: how many flags fit in the file sized for `len` flags. */
  function MmapMaxCurrentSize(len: nat, minimalSize: nat): (maxLen: nat)
    ensures maxLen >= len
    ensures maxLen >= 8 * minimalSize
  {
    var capacityBytes := MmapCapacityBytes(len, minimalSize);
    capacityBytes * 8
  }

  /** Growing within the current maximum keeps the file size: no resize is needed. */
  lemma CapacityStableWithinMax(len: nat, newLen: nat, minimalSize: nat)
    requires IsPowerOfTwo(minimalSize)
    requires len <= newLen <= MmapMaxCurrentSize(len, minimalSize)
    ensures MmapCapacityBytes(newLen, minimalSize) == MmapCapacityBytes(len, minimalSize)
  {
    CapacityMonotone(len, newLen, minimalSize);
    CapacityIsLeast(newLen, minimalSize, MmapCapacityBytes(len, minimalSize));
  }

  /** Growing past the current maximum at least doubles the file: old contents are a strict prefix. */
  lemma CapacityGrowsPastMax(len: nat, newLen: nat, minimalSize: nat)
    requires IsPowerOfTwo(minimalSize)
    requires newLen > MmapMaxCurrentSize(len, minimalSize)
    ensures MmapCapacityBytes(newLen, minimalSize) >= 2 * MmapCapacityBytes(len, minimalSize)
  {
    PowerOfTwoGap(MmapCapacityBytes(len, minimalSize), MmapCapacityBytes(newLen, minimalSize));
  }
}
