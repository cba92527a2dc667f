/** Unsigned counters that run freely modulo `range` and pick the slots of a smaller ring. */
module Counters {

  /** The range of the unsigned 32-bit counters in use. */
  const COUNTER_RANGE: nat := 0x1_0000_0000

  function Next(c: nat, range: nat): nat {
    if c + 1 == range then 0 else c + 1
  }

  /** `n` modulo `m`, by repeated subtraction (`ModuloIsRemainder`). */
  ghost function Modulo(n: nat, m: nat): (r: nat)
    requires m > 0
    ensures r < m && r <= n
    decreases n
  {
    if n < m then n else Modulo(n - m, m)
  }

  lemma {:induction false} ModuloIsRemainder(n: nat, m: nat)
    requires m > 0
    ensures Modulo(n, m) == n % m
    decreases n
  {
    if n < m {
      QuotientUnique(n, m, 0, n);
    } else {
      ModuloIsRemainder(n - m, m);
      QuotientUnique(n, m, (n - m) / m + 1, (n - m) % m);
    }
  }

  lemma QuotientUnique(n: nat, m: nat, q: int, r: nat)
    requires m > 0 && r < m && n == m * q + r
    ensures n % m == r && n / m == q
  {
    assert m * (q - n / m) == n % m - r by { assert m * (q - n / m) == m * q - m * (n / m); }
    MultipleGap(m, q - n / m);
  }

  lemma MultipleGap(m: nat, q: int)
    requires m > 0
    ensures q == 0 || m * q >= m || m * q <= -(m as int)
  {
    if q >= 1 {
      assert m * q >= m;
    } else if q <= -1 {
      assert m * q <= -(m as int);
    }
  }

  lemma {:induction false} ModuloNext(n: nat, m: nat)
    requires m > 0
    ensures Next(Modulo(n, m), m) == Modulo(n + 1, m)
    decreases n
  {
    if n >= m {
      ModuloNext(n - m, m);
    }
  }

  /** Two numbers agree modulo `m` exactly when `m` divides their distance. */
  lemma {:induction false} SameModulo(a: nat, b: nat, m: nat)
    requires m > 0 && a <= b
    ensures Modulo(a, m) == Modulo(b, m) <==> Modulo(b - a, m) == 0
    decreases b
  {
    if b >= m {
      if a >= m {
        SameModulo(a - m, b - m, m);
      } else if b - m >= a {
        SameModulo(a, b - m, m);
      } else {
        SmallDistance(b - m, a, m);
      }
    }
  }

  lemma {:induction false} SmallDistance(a: nat, b: nat, m: nat)
    requires a < b < a + m
    ensures Modulo(a, m) != Modulo(b, m)
    decreases a
  {
    if a >= m {
      SmallDistance(a - m, b - m, m);
    }
  }

  lemma {:induction false} MultiplesVanish(n: nat, range: nat, size: nat)
    requires size > 0 && Modulo(range, size) == 0
    ensures Modulo(n + range, size) == Modulo(n, size)
  {
    SameModulo(n, n + range, size);
  }

  /** Reducing a count to the counter range keeps its slot when the ring size divides the range. */
  lemma {:induction false} WrapKeepsSlot(n: nat, range: nat, size: nat)
    requires size > 0 && range > 0 && Modulo(range, size) == 0
    ensures Modulo(Modulo(n, range), size) == Modulo(n, size)
    decreases n
  {
    if n >= range {
      WrapKeepsSlot(n - range, range, size);
      MultiplesVanish(n - range, range, size);
    }
  }

  /** Exactly the rings whose size divides the counter range keep every slot over the wrap. */
  lemma WrapIsSafeIff(range: nat, size: nat)
    requires size > 0 && range > 0
    ensures (forall n: nat :: Modulo(Modulo(n, range), size) == Modulo(n, size)) <==> range % size == 0
  {
    ModuloIsRemainder(range, size);
    if Modulo(range, size) == 0 {
      forall n: nat
        ensures Modulo(Modulo(n, range), size) == Modulo(n, size)
      {
        WrapKeepsSlot(n, range, size);
      }
    } else {
      assert Modulo(Modulo(range, range), size) == 0;
    }
  }

  /** A reader whose counter differs from the write counter by a multiple of the range seems to have read everything. */
  ghost function Resumed(position: nat, written: nat, range: nat): (r: nat)
    requires range > 0 && position <= written
    ensures position <= r <= written
    ensures written - position < range ==> r == position
  {
    written - Modulo(written - position, range)
  }

  lemma ResumedKeepsCounter(position: nat, written: nat, range: nat)
    requires range > 0 && position <= written
    ensures Modulo(Resumed(position, written, range), range) == Modulo(position, range)
    ensures Modulo(written - Resumed(position, written, range), range) == Modulo(written - position, range)
  {
    var r := Resumed(position, written, range);
    MultiplesAreLeft(written - position, range);
    SameModulo(position, r, range);
    ModuloTwice(written - position, range);
  }

  lemma {:induction false} MultiplesAreLeft(n: nat, m: nat)
    requires m > 0
    ensures Modulo(n - Modulo(n, m), m) == 0
    decreases n
  {
    if n >= m {
      MultiplesAreLeft(n - m, m);
    }
  }

  // ---------- Rings ----------

  /** A ring of `size` slots under free-running counters of some range. */
  datatype Ring = Ring(size: nat, range: nat) {
    ghost predicate Valid() {
      size > 0 && range > 0
    }

    /** The slot of the value with log index `i`. */
    ghost function SlotOf(i: nat): (slot: nat)
      requires Valid()
      ensures slot < size
    {
      Modulo(Modulo(i, range), size)
    }

    /** Of the first `written` indices, the last one that falls into the slot of index `i`. */
    ghost function Latest(i: nat, written: nat): (r: nat)
      requires Valid() && i < written
      ensures i <= r < written && SlotOf(r) == SlotOf(i)
      decreases written
    {
      if SlotOf(written - 1) == SlotOf(i) then written - 1 else Latest(i, written - 1)
    }

    /** As long as the counters have not wrapped, or if the size divides their range, slots go round evenly. */
    ghost predicate Even(written: nat)
      requires Valid()
    {
      Modulo(range, size) == 0 || written <= range
    }

    /** A lag that loses nothing and cannot be mistaken for none. */
    ghost predicate Takes(lag: nat) {
      lag <= size && lag < range
    }
  }

  /** An index is still readable exactly while no later one falls into its slot. */
  lemma {:induction false} ReadableIff(ring: Ring, i: nat, written: nat)
    requires ring.Valid() && i < written
    ensures ring.Latest(i, written) == i <==> forall j :: i < j < written ==> ring.SlotOf(j) != ring.SlotOf(i)
    decreases written
  {
    if ring.SlotOf(written - 1) != ring.SlotOf(i) {
      ReadableIff(ring, i, written - 1);
    }
  }

  lemma SlotsGoRound(ring: Ring, i: nat, written: nat)
    requires ring.Valid() && ring.Even(written) && i < written
    ensures ring.SlotOf(i) == Modulo(i, ring.size)
  {
    if Modulo(ring.range, ring.size) == 0 {
      WrapKeepsSlot(i, ring.range, ring.size);
    }
  }

  /** With even slots that is exactly while fewer than `size` others follow it. */
  lemma EvenlyReadableIff(ring: Ring, i: nat, written: nat)
    requires ring.Valid() && ring.Even(written) && i < written
    ensures ring.Latest(i, written) == i <==> written - i <= ring.size
  {
    ReadableIff(ring, i, written);
    SlotsGoRound(ring, i, written);
    if written - i <= ring.size {
      forall j | i < j < written ensures ring.SlotOf(j) != ring.SlotOf(i) {
        SlotsGoRound(ring, j, written);
        SmallDistance(i, j, ring.size);
      }
    } else {
      SlotsGoRound(ring, i + ring.size, written);
      SameModulo(i, i + ring.size, ring.size);
      assert ring.SlotOf(i + ring.size) == ring.SlotOf(i);
    }
  }

  /** No index with fewer than `size` others behind it is lost. */
  ghost predicate LosesNothing(ring: Ring)
    requires ring.Valid()
  {
    forall i: nat, written: nat :: i < written <= i + ring.size ==> ring.Latest(i, written) == i
  }

  /** A ring loses nothing, for ever, exactly if its size divides the counter range. */
  lemma LosesNothingIff(ring: Ring)
    requires ring.Valid()
    ensures LosesNothing(ring) <==> ring.range % ring.size == 0
  {
    var size, range := ring.size, ring.range;
    ModuloIsRemainder(range, size);
    if Modulo(range, size) == 0 {
      forall i: nat, written: nat | i < written <= i + size ensures ring.Latest(i, written) == i {
        EvenlyReadableIff(ring, i, written);
      }
    } else {
      // the last start of a round before the wrap and the wrap itself share slot 0
      var rest := Modulo(range, size);
      var i := range - rest;
      MultiplesAreLeft(range, size);
      assert ring.SlotOf(i) == 0 && ring.SlotOf(range) == 0;
      ReadableIff(ring, i, range + 1);
      assert i < range + 1 <= i + size;
    }
  }

  lemma {:induction false} ModuloTwice(n: nat, m: nat)
    requires m > 0
    ensures Modulo(Modulo(n, m), m) == Modulo(n, m)
  {
  }
}
