/** Facts about 64-bit words, each small enough for the bit-vector solver on its own. */
module WordBits {

  function GetSizeBits(x: bv64): bv64 { x & 0x3fff_ffff_ffff_ffff }

  lemma SplitWord(x: bv64)
    ensures x as int == (x & 0x3fff_ffff_ffff_ffff) as int + (x & 0xc000_0000_0000_0000) as int
  {
  }

  lemma ShiftIsDivision(x: bv64)
    ensures (x >> 62) as int == x as int / 0x4000_0000_0000_0000
  {
  }

  lemma NoFlagsLeft(x: bv64)
    ensures ((x & 0x3fff_ffff_ffff_ffff) >> 62) as int == 0
  {
  }

  lemma QuotientOfSize(x: bv64)
    ensures GetSizeBits(x) as int / 0x4000_0000_0000_0000 == 0
  {
    ShiftIsDivision(GetSizeBits(x));
    NoFlagsLeft(x);
  }

  lemma BelowDivisor(n: int)
    requires 0 <= n && n / 0x4000_0000_0000_0000 == 0
    ensures n < 0x4000_0000_0000_0000
  {
  }

  lemma NotNegative(x: bv64)
    ensures 0 <= x as int
  {
  }

  lemma SizeIsSmall(x: bv64)
    ensures GetSizeBits(x) as int < 0x4000_0000_0000_0000
  {
    QuotientOfSize(x);
    NotNegative(GetSizeBits(x));
    BelowDivisor(GetSizeBits(x) as int);
  }
}

/** The packed 64-bit word at the front of every heap block: bit 63 is the hole flag, bit 62 the
    fast flag, the low 62 bits the payload size in bytes.  The allocator model works on the
    arithmetic reading; the lemmas at the end tie it to the masks and shifts of the C macros. */
module HeaderWord {
  import opened WordBits

  const TWO62: int := 0x4000_0000_0000_0000
  const TWO63: int := 0x8000_0000_0000_0000
  const TWO64: int := 0x1_0000_0000_0000_0000

  predicate IsWord(x: int) { 0 <= x < TWO64 }

  function Bit(b: bool): int { if b then 1 else 0 }

  function GetHole(x: int): bool { x / TWO63 % 2 == 1 }
  function GetFast(x: int): bool { x / TWO62 % 2 == 1 }
  function GetSize(x: int): int { x % TWO62 }

  function Header(hole: bool, fast: bool, size: int): int {
    Bit(hole) * TWO63 + Bit(fast) * TWO62 + size
  }

  function SetHole(x: int, hole: bool): int { Header(hole, GetFast(x), GetSize(x)) }
  function SetFast(x: int, fast: bool): int { Header(GetHole(x), fast, GetSize(x)) }
  function SetSize(x: int, size: int): int { Header(GetHole(x), GetFast(x), size % TWO62) }

  /** Reading back a packed header gives the three fields it was packed from, and they are the
      whole of the word. */
  lemma HeaderFields(hole: bool, fast: bool, size: int)
    requires 0 <= size < TWO62
    ensures IsWord(Header(hole, fast, size))
    ensures GetHole(Header(hole, fast, size)) == hole
    ensures GetFast(Header(hole, fast, size)) == fast
    ensures GetSize(Header(hole, fast, size)) == size
  {
  }

  lemma HeaderOfFields(x: int)
    requires IsWord(x)
    ensures Header(GetHole(x), GetFast(x), GetSize(x)) == x
  {
  }

  // The C macros, on machine words, with the three masks written out.
  function GetHoleBits(x: bv64): bv64 { (x & 0x8000_0000_0000_0000) >> 63 }
  function GetFastBits(x: bv64): bv64 { (x & 0x4000_0000_0000_0000) >> 62 }
  function SetHoleBits(x: bv64, v: bv64): bv64 { (x & 0x7fff_ffff_ffff_ffff) | ((v & 1) << 63) }
  function SetFastBits(x: bv64, v: bv64): bv64 { (x & 0xbfff_ffff_ffff_ffff) | ((v & 1) << 62) }
  function SetSizeBits(x: bv64, v: bv64): bv64 {
    (x & 0xc000_0000_0000_0000) | (v & 0x3fff_ffff_ffff_ffff)
  }

  function FlagBits(x: bv64): bv64 { x & 0xc000_0000_0000_0000 }

  lemma FlagsFromBits(x: bv64)
    ensures FlagBits(x) as int == GetHoleBits(x) as int * TWO63 + GetFastBits(x) as int * TWO62
    ensures GetHoleBits(x) as int <= 1 && GetFastBits(x) as int <= 1
  {
    var f := FlagBits(x);
    if f == 0 {
      assert GetHoleBits(x) == 0 && GetFastBits(x) == 0;
    } else if f == 0x4000_0000_0000_0000 {
      assert GetHoleBits(x) == 0 && GetFastBits(x) == 1;
    } else if f == 0x8000_0000_0000_0000 {
      assert GetHoleBits(x) == 1 && GetFastBits(x) == 0;
    } else {
      assert f == 0xc000_0000_0000_0000;
      assert GetHoleBits(x) == 1 && GetFastBits(x) == 1;
    }
  }

  /** The arithmetic readers agree with the bit-mask readers on every machine word. */
  lemma MacrosAgree(x: bv64)
    ensures GetSize(x as int) == GetSizeBits(x) as int
    ensures Bit(GetHole(x as int)) == GetHoleBits(x) as int
    ensures Bit(GetFast(x as int)) == GetFastBits(x) as int
  {
    SplitWord(x);
    SizeIsSmall(x);
    FlagsFromBits(x);
    FieldsOfSum(x as int, GetHoleBits(x) as int, GetFastBits(x) as int, GetSizeBits(x) as int);
  }

  lemma FieldsOfSum(w: int, hole: int, fast: int, size: int)
    requires 0 <= hole <= 1 && 0 <= fast <= 1 && 0 <= size < TWO62
    requires w == size + hole * TWO63 + fast * TWO62
    ensures GetSize(w) == size && Bit(GetHole(w)) == hole && Bit(GetFast(w)) == fast
  {
    HeaderFields(hole == 1, fast == 1, size);
  }

  lemma SetSizeBitFields(x: bv64, v: bv64)
    ensures GetSizeBits(SetSizeBits(x, v)) == GetSizeBits(v)
    ensures GetHoleBits(SetSizeBits(x, v)) == GetHoleBits(x)
    ensures GetFastBits(SetSizeBits(x, v)) == GetFastBits(x)
  {
  }

  lemma SetHoleBitFields(x: bv64, v: bv64)
    ensures GetSizeBits(SetHoleBits(x, v)) == GetSizeBits(x)
    ensures GetHoleBits(SetHoleBits(x, v)) == v & 1
    ensures GetFastBits(SetHoleBits(x, v)) == GetFastBits(x)
  {
  }

  lemma SetFastBitFields(x: bv64, v: bv64)
    ensures GetSizeBits(SetFastBits(x, v)) == GetSizeBits(x)
    ensures GetHoleBits(SetFastBits(x, v)) == GetHoleBits(x)
    ensures GetFastBits(SetFastBits(x, v)) == v & 1
  {
  }

  /** The arithmetic writers agree with the bit-mask writers on every machine word. */
  lemma SizeWriterAgrees(x: bv64, v: bv64)
    ensures SetSizeBits(x, v) as int == SetSize(x as int, v as int)
  {
    MacrosAgree(x);
    MacrosAgree(v);
    SetSizeBitFields(x, v);
    MacrosAgree(SetSizeBits(x, v));
    HeaderOfFields(SetSizeBits(x, v) as int);
  }

  lemma HoleWriterAgrees(x: bv64, v: bv64)
    requires v == 0 || v == 1
    ensures SetHoleBits(x, v) as int == SetHole(x as int, v == 1)
  {
    MacrosAgree(x);
    SetHoleBitFields(x, v);
    MacrosAgree(SetHoleBits(x, v));
    HeaderOfFields(SetHoleBits(x, v) as int);
  }

  lemma FastWriterAgrees(x: bv64, v: bv64)
    requires v == 0 || v == 1
    ensures SetFastBits(x, v) as int == SetFast(x as int, v == 1)
  {
    MacrosAgree(x);
    SetFastBitFields(x, v);
    MacrosAgree(SetFastBits(x, v));
    HeaderOfFields(SetFastBits(x, v) as int);
  }
}
