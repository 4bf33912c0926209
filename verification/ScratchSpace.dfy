/** The scratch space from which the multi-point multipliers take their buffers. Sizes are 64-bit
    words; what is kept here is how much of the space has been handed out. */
module ScratchSpace {
  import opened Arith
  import opened Words

  /** Buffers start at multiples of a power of two. */
  predicate IsAlignment(a: int) {
    1 <= a <= 0x1000 && TWO_64 % a == 0
  }

  /** The room a buffer takes: its size rounded up to whole units. */
  function Rounded(size: nat, a: int): (r: nat)
    requires a >= 1
  {
    ((size + a - 1) / a) * a
  }

  /** The rounded size is the smallest number of whole units that holds the size. */
  lemma RoundedIs(size: nat, a: int)
    requires a >= 1
    ensures size <= Rounded(size, a) <= size + a - 1
    ensures Rounded(size, a) % a == 0
  {
    DivMod(size + a - 1, a);
    DivIs(Rounded(size, a), a, (size + a - 1) / a, 0);
  }

  /** For a positive size the source's division rounding up is this one. */
  lemma CeilIs(size: nat, a: int)
    requires a >= 1 && size >= 1
    ensures (1 + (size - 1) / a) * a == Rounded(size, a)
  {
    var q := (size - 1) / a;
    DivMod(size - 1, a);
    assert (q + 1) * a == q * a + a;
    DivIs(size + a - 1, a, q + 1, (size - 1) % a);
  }

  /** Whole units up to a limit that is made of whole units. */
  lemma RoundedBelow(size: nat, a: int, limit: int)
    requires a >= 1 && limit % a == 0 && size <= limit
    ensures Rounded(size, a) <= limit
  {
    var u, q := (size + a - 1) / a, limit / a;
    DivMod(limit, a);
    DivMod(size + a - 1, a);
    if u > q {
      MulMono(q + 1, u, a);
    }
    MulMono(u, q, a);
  }

  /** Rounding 0 goes through the wrapped-around 0 - 1, and still gives 0. */
  lemma ZeroRounded(a: int)
    requires IsAlignment(a)
    ensures ((1 + (TWO_64 - 1) / a) * a) % TWO_64 == 0 && Rounded(0, a) == 0
  {
    var q := TWO_64 / a;
    DivMod(TWO_64, a);
    DivIs(a - 1, a, 0, a - 1);
    assert (q - 1) * a == q * a - a;
    DivIs(TWO_64 - 1, a, q - 1, a - 1);
  }

  /** What the largest buffers may add up to when they are cut from free octets in a number of
      pieces. */
  function Allowance(free: nat, objects: nat, a: int): (m: nat)
    requires a >= 1
  {
    if objects * (a - 1) < free then free - objects * (a - 1) else 0
  }

  /** Rounds a size up in 64-bit words; it can wrap around only to 0. */
  method RoundToAlign(size: u64, a: int) returns (r: u64)
    requires IsAlignment(a)
    ensures r == if Rounded(size, a) < TWO_64 then Rounded(size, a) else 0
    ensures Rounded(size, a) <= TWO_64
  {
    RoundedBelow(size, a, TWO_64);
    RoundedWord(size, a);
    hide Rounded, IsAlignment;
    WholeLimit(Rounded(size, a));
    var last: u64 := (size - 1) % TWO_64;
    r := ((1 + last / a) * a) % TWO_64;
  }

  lemma RoundedWord(size: u64, a: int)
    requires IsAlignment(a)
    ensures ((1 + ((size - 1) % TWO_64) / a) * a) % TWO_64 == Rounded(size, a) % TWO_64
  {
    if size == 0 {
      ZeroRounded(a);
    } else {
      CeilIs(size, a);
      hide Rounded, IsAlignment;
      assert (size - 1) % TWO_64 == size - 1;
    }
  }

  lemma WholeLimit(x: nat)
    requires x <= TWO_64
    ensures x % TWO_64 == if x < TWO_64 then x else 0
  {
  }

  class Scratch {
    const alignment: int
    const maxSize: u64
    var allocSize: u64

    ghost predicate Valid()
      reads this
    {
      IsAlignment(alignment) && allocSize <= maxSize
    }

    function Free(): nat
      requires Valid()
      reads this
    {
      maxSize - allocSize
    }

    constructor (alignment: int, size: u64)
      requires IsAlignment(alignment)
      ensures Valid() && Free() == size && this.alignment == alignment
    {
      this.alignment := alignment;
      maxSize := size;
      allocSize := 0;
    }

    method Checkpoint() returns (checkpoint: u64)
      ensures checkpoint == allocSize
    {
      checkpoint := allocSize;
    }

    /** Gives back everything handed out since the checkpoint. */
    method ApplyCheckpoint(checkpoint: u64)
      requires Valid()
      modifies this
      ensures Valid()
      ensures allocSize == if checkpoint <= old(allocSize) then checkpoint else old(allocSize)
    {
      if checkpoint > allocSize {
        return;
      }
      allocSize := checkpoint;
    }

    method MaxAllocation(objects: u64) returns (m: u64)
      requires Valid()
      ensures m == Allowance(Free(), objects, alignment)
      ensures m > 0 ==> m + objects * (alignment - 1) == Free()
      ensures m == 0 <==> Free() <= objects * (alignment - 1)
    {
      hide Rounded, IsAlignment;
      AlignmentIs(alignment);
      if alignment > 1 && objects > (TWO_64 - 1) / (alignment - 1) {
        TooMany(objects, alignment - 1);
        AllowanceIs(Free(), objects, alignment, objects * (alignment - 1));
        return 0;
      }
      if alignment > 1 {
        NotTooMany(objects, alignment - 1);
      }
      var slack: u64 := objects * (alignment - 1);
      AllowanceIs(Free(), objects, alignment, slack);
      hide Allowance;
      if maxSize - allocSize <= slack {
        return 0;
      }
      m := maxSize - allocSize - slack;
    }

    /** Succeeds exactly when the rounded size is still free. */
    method Alloc(size: u64) returns (ok: bool)
      requires Valid()
      modifies this
      ensures Valid()
      ensures ok <==> Rounded(size, alignment) <= old(Free())
      ensures allocSize == old(allocSize) + (if ok then Rounded(size, alignment) else 0)
    {
      RoundedIs(size, alignment);
      var roundedSize := RoundToAlign(size, alignment);
      if roundedSize < size {
        return false;
      }
      if roundedSize > maxSize - allocSize {
        return false;
      }
      allocSize := allocSize + roundedSize;
      ok := true;
    }
  }

  lemma AllowanceIs(free: nat, objects: nat, a: int, slack: nat)
    requires a >= 1 && slack == objects * (a - 1)
    ensures Allowance(free, objects, a) == if slack < free then free - slack else 0
  {
  }

  lemma AlignmentIs(a: int)
    requires IsAlignment(a)
    ensures 1 <= a <= 0x1000
  {
  }

  lemma NotTooMany(objects: u64, b: int)
    requires b >= 1 && objects <= (TWO_64 - 1) / b
    ensures objects * b <= TWO_64 - 1
  {
    DivMod(TWO_64 - 1, b);
    MulMono(objects, (TWO_64 - 1) / b, b);
  }

  lemma TooMany(objects: u64, b: int)
    requires b >= 1 && objects > (TWO_64 - 1) / b
    ensures objects * b > TWO_64 - 1
  {
    var q := (TWO_64 - 1) / b;
    DivMod(TWO_64 - 1, b);
    MulMono(q + 1, objects, b);
    assert (q + 1) * b == q * b + b;
  }
}
