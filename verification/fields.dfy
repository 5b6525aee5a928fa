/** The register-field macros of inc/gd32f4xx.h, and fields written one after the other. */
module Fields {
  import opened Words

  datatype Field = Field(start: nat, end: nat) {
    predicate Valid() {
      start <= end < 32
    }

    function Width(): nat
      requires Valid()
    {
      end - start + 1
    }
  }

  // BITS(start, end)
  function Mask(f: Field): (r: Word)
    requires f.Valid()
    ensures forall i :: 0 <= i < 32 ==> r[i] == (f.start <= i <= f.end)
  {
    And(Shl(Not(Zero()), f.start), Shr(Not(Zero()), 31 - f.end))
  }

  // GET_BITS(w, start, end)
  function GetBits(w: Word, f: Field): (r: Word)
    requires f.Valid()
    ensures forall i :: 0 <= i < 32 ==> r[i] == (i < f.Width() && w[f.start + i])
  {
    Shr(And(w, Mask(f)), f.start)
  }

  // BITS(start, end) & (v << start), the form of the field macros
  function Place(f: Field, v: Word): (r: Word)
    requires f.Valid()
    ensures forall i :: 0 <= i < 32 ==> r[i] == (f.start <= i <= f.end && v[i - f.start])
  {
    And(Mask(f), Shl(v, f.start))
  }

  // reg &= ~BITS(start, end); reg |= the placed value
  function Write(w: Word, f: Field, v: Word): Word
    requires f.Valid()
  {
    Or(And(w, Not(Mask(f))), Place(f, v))
  }

  predicate Disjoint(f: Field, g: Field) {
    f.end < g.start || g.end < f.start
  }

  // The value cut to the field's width.
  function Cut(v: Word, f: Field): (r: Word)
    requires f.Valid()
    ensures forall i :: 0 <= i < 32 ==> r[i] == (i < f.Width() && v[i])
  {
    And(v, LowMask(f.Width()))
  }

  // Cutting is reduction modulo 2^width.
  lemma CutValue(v: Word, f: Field)
    requires f.Valid()
    ensures Value(Cut(v, f)) == Value(v) % Pow2(f.Width())
  {
    var n := f.Width();
    ValueLow(Cut(v, f), n);
    assert Cut(v, f)[..n] == v[..n];
    ValueMod(v, n);
  }

  lemma ReadWritten(w: Word, f: Field, v: Word)
    requires f.Valid()
    ensures GetBits(Write(w, f, v), f) == Cut(v, f)
  {
    assert forall i :: 0 <= i < 32 ==> GetBits(Write(w, f, v), f)[i] == Cut(v, f)[i];
  }

  lemma ReadOther(w: Word, f: Field, g: Field, v: Word)
    requires f.Valid() && g.Valid() && Disjoint(f, g)
    ensures GetBits(Write(w, g, v), f) == GetBits(w, f)
  {
    assert forall i :: 0 <= i < 32 ==> GetBits(Write(w, g, v), f)[i] == GetBits(w, f)[i];
  }

  /** Writing one field leaves another alone, whatever is written and whatever was there, if and only if
      they are disjoint. */
  lemma IndependentIff(f: Field, g: Field)
    requires f.Valid() && g.Valid()
    ensures (forall w: Word, v: Word :: GetBits(Write(w, g, v), f) == GetBits(w, f)) <==> Disjoint(f, g)
  {
    if Disjoint(f, g) {
      forall w: Word, v: Word
        ensures GetBits(Write(w, g, v), f) == GetBits(w, f)
      {
        ReadOther(w, f, g, v);
      }
    } else {
      var i := if f.start <= g.start then g.start - f.start else 0;
      var all: Word := Not(Zero());
      assert !GetBits(Zero(), f)[i] && GetBits(Write(Zero(), g, all), f)[i];
    }
  }

  // ---- Any sequence of writes -----------------------------------------------------------------------

  datatype Put = Put(field: Field, value: Word)

  function WriteAll(w: Word, puts: seq<Put>): Word
    requires forall p :: p in puts ==> p.field.Valid()
  {
    if puts == [] then w
    else
      var last := puts[|puts| - 1];
      assert last in puts;
      Write(WriteAll(w, puts[..|puts| - 1]), last.field, last.value)
  }

  // What the field holds at last: the value last put into it, or what it held before.
  function LastValue(w: Word, puts: seq<Put>, f: Field): Word
    requires f.Valid()
  {
    if puts == [] then GetBits(w, f)
    else if puts[|puts| - 1].field == f then Cut(puts[|puts| - 1].value, f)
    else LastValue(w, puts[..|puts| - 1], f)
  }

  /** After any sequence of writes to pairwise disjoint fields each field reads as the value last written to
      it, cut to its width. */
  lemma {:induction false} FieldsKeepTheirValues(w: Word, puts: seq<Put>, f: Field)
    requires f.Valid() && forall p :: p in puts ==> p.field.Valid() && (p.field == f || Disjoint(f, p.field))
    ensures GetBits(WriteAll(w, puts), f) == LastValue(w, puts, f)
    decreases |puts|
  {
    if puts != [] {
      var before := puts[..|puts| - 1];
      var last := puts[|puts| - 1];
      assert last in puts && forall p :: p in before ==> p in puts;
      FieldsKeepTheirValues(w, before, f);
      if last.field == f {
        ReadWritten(WriteAll(w, before), f, last.value);
      } else {
        ReadOther(WriteAll(w, before), f, last.field, last.value);
      }
    }
  }

  // Bits outside all the fields written stay as they are.
  lemma {:induction false} OtherBitsStay(w: Word, puts: seq<Put>, i: nat)
    requires i < 32 && forall p :: p in puts ==> p.field.Valid() && !(p.field.start <= i <= p.field.end)
    ensures WriteAll(w, puts)[i] == w[i]
    decreases |puts|
  {
    if puts != [] {
      var before := puts[..|puts| - 1];
      assert puts[|puts| - 1] in puts && forall p :: p in before ==> p in puts;
      OtherBitsStay(w, before, i);
    }
  }
}

/** The four MAC address slots (gd32f4xx_enet.h, gd32f4xx_enet.c). */
module MacAddresses {
  import opened Words
  import opened Fields

  // Six bytes, least significant first.
  type Address = a: seq<Byte> | |a| == 6 witness seq(6, _ => seq(8, _ => false))

  // The eight words from ENET + 0x40 on.
  type Regs = r: seq<Word> | |r| == 8 witness seq(8, _ => seq(32, _ => false))

  const ADDRH_BASE := 0x40
  const ADDRL_BASE := 0x44
  const MB := Field(24, 29)

  // enet_macaddress_enum
  function Offset(slot: nat): nat {
    8 * slot
  }

  function Index(address: nat): nat
    requires 0x40 <= address
  {
    (address - 0x40) / 4
  }

  // ENET_SET_MACADDRH and ENET_SET_MACADDRL
  function HighWord(a: Address): (r: Word)
    ensures forall i :: 0 <= i < 32 ==> r[i] == (if i < 8 then a[4][i] else i < 16 && a[5][i - 8])
  {
    Or(Shl(Extend(a[5]), 8), Extend(a[4]))
  }

  function LowWord(a: Address): (r: Word)
    ensures forall i :: 0 <= i < 32 ==>
              r[i] == (if i < 8 then a[0][i] else if i < 16 then a[1][i - 8]
                       else if i < 24 then a[2][i - 16] else a[3][i - 24])
  {
    Or(Or(Shl(Extend(a[3]), 24), Shl(Extend(a[2]), 16)), Or(Shl(Extend(a[1]), 8), Extend(a[0])))
  }

  // ENET_GET_MACADDR(offset, n)
  function GetByte(regs: Regs, slot: nat, n: nat): (r: Byte)
    requires slot < 4 && n < 6
    ensures var w: Word := regs[2 * slot + if n < 4 then 1 else 0];
            forall i :: 0 <= i < 8 ==> r[i] == w[8 * (n % 4) + i]
  {
    var address := ADDRL_BASE + Offset(slot) - n / 4 * 4;
    assert Index(address) == 2 * slot + if n < 4 then 1 else 0;
    Low8(And(Shr(regs[Index(address)], 8 * (n % 4)), LowMask(8)))
  }

  function GetAddress(regs: Regs, slot: nat): (a: Address)
    requires slot < 4
    ensures forall n :: 0 <= n < 6 ==> a[n] == GetByte(regs, slot, n)
  {
    seq(6, n requires 0 <= n < 6 => GetByte(regs, slot, n))
  }

  // Bit 31 of the first register always reads 1.
  function Store(regs: Regs, address: nat, w: Word): Regs
    requires 0x40 <= address < 0x60 && address % 4 == 0
  {
    regs[Index(address) := if address == 0x40 then Or(w, Bit(31)) else w]
  }

  datatype Op =
    | Set(slot: nat, address: Address)
    | FilterEnable(slot: nat)
    | FilterDisable(slot: nat)
    | FilterConfig(slot: nat, mask: Word, kind: Word)

  // The address filters belong to slots 1 to 3.
  predicate Allowed(op: Op) {
    op.slot < 4 && (op.Set? || 0 < op.slot)
  }

  function High(regs: Regs, slot: nat): Word
    requires slot < 4
  {
    regs[Index(ADDRH_BASE + Offset(slot))]
  }

  function Apply(regs: Regs, op: Op): Regs
    requires Allowed(op)
  {
    var h := ADDRH_BASE + Offset(op.slot);
    match op
    case Set(slot, a) => Store(Store(regs, h, HighWord(a)), ADDRL_BASE + Offset(slot), LowWord(a))
    case FilterEnable(slot) => Store(regs, h, Or(High(regs, slot), Bit(31)))
    case FilterDisable(slot) => Store(regs, h, And(High(regs, slot), Not(Bit(31))))
    case FilterConfig(slot, mask, kind) =>
      Store(regs, h, Or(And(High(regs, slot), Not(Or(Mask(MB), Bit(30)))), Or(mask, kind)))
  }

  // A filter configuration that stays out of the address bits.
  predicate Clean(op: Op) {
    op.FilterConfig? ==> forall i :: 0 <= i < 16 ==> !op.mask[i] && !op.kind[i]
  }

  // An address is the low half of its high word, and its low word.
  lemma SameAddress(r: Regs, s: Regs, slot: nat)
    requires slot < 4
    requires r[2 * slot + 1] == s[2 * slot + 1]
    requires forall i :: 0 <= i < 16 ==> High(r, slot)[i] == High(s, slot)[i]
    ensures GetAddress(r, slot) == GetAddress(s, slot)
  {
    forall n | 0 <= n < 6
      ensures GetByte(r, slot, n) == GetByte(s, slot, n)
    {
      SameByte(r, s, slot, n);
    }
    hide GetByte, High;
  }

  lemma SameByte(r: Regs, s: Regs, slot: nat, n: nat)
    requires slot < 4 && n < 6
    requires r[2 * slot + 1] == s[2 * slot + 1]
    requires forall i :: 0 <= i < 16 ==> High(r, slot)[i] == High(s, slot)[i]
    ensures GetByte(r, slot, n) == GetByte(s, slot, n)
  {
    assert High(r, slot) == r[2 * slot] && High(s, slot) == s[2 * slot];
    forall i | 0 <= i < 8
      ensures GetByte(r, slot, n)[i] == GetByte(s, slot, n)[i]
    {
      ByteSource(r, slot, n, i);
      ByteSource(s, slot, n, i);
    }
    hide GetByte, High;
  }

  lemma SetThenGet(regs: Regs, slot: nat, a: Address)
    requires slot < 4
    ensures GetAddress(Apply(regs, Set(slot, a)), slot) == a
  {
    var t := Apply(regs, Set(slot, a));
    assert t[2 * slot + 1] == LowWord(a);
    assert forall i :: 0 <= i < 16 ==> t[2 * slot][i] == HighWord(a)[i];
    forall n | 0 <= n < 6
      ensures GetByte(t, slot, n) == a[n]
    {
      SetThenGetByte(t, slot, a, n);
    }
  }

  /** Slot 0 keeps its always-one bit 31, whatever is written. */
  lemma FirstSlotBit31(regs: Regs, a: Address)
    ensures High(Apply(regs, Set(0, a)), 0)[31]
  {
  }

  lemma LowWordByte(a: Address, n: nat, i: nat)
    requires n < 4 && i < 8
    ensures LowWord(a)[8 * n + i] == a[n][i]
  {
    hide LowWord;
    assert n == 0 || n == 1 || n == 2 || n == 3;
  }

  lemma HighWordByte(a: Address, n: nat, i: nat)
    requires 4 <= n < 6 && i < 8
    ensures HighWord(a)[8 * (n - 4) + i] == a[n][i]
  {
    hide HighWord;
    assert n == 4 || n == 5;
  }

  // Where byte n of a slot's address is read from.
  lemma ByteSource(t: Regs, slot: nat, n: nat, i: nat)
    requires slot < 4 && n < 6 && i < 8
    ensures n < 4 ==> GetByte(t, slot, n)[i] == t[2 * slot + 1][8 * n + i]
    ensures 4 <= n ==> GetByte(t, slot, n)[i] == t[2 * slot][8 * (n - 4) + i]
  {
    hide GetByte;
    if n < 4 {
      assert n % 4 == n;
    } else {
      assert n % 4 == n - 4;
    }
  }

  lemma SetThenGetByte(t: Regs, slot: nat, a: Address, n: nat)
    requires slot < 4 && n < 6 && t[2 * slot + 1] == LowWord(a)
    requires forall i :: 0 <= i < 16 ==> t[2 * slot][i] == HighWord(a)[i]
    ensures GetByte(t, slot, n) == a[n]
  {
    forall i | 0 <= i < 8
      ensures GetByte(t, slot, n)[i] == a[n][i]
    {
      SetThenGetBit(t, slot, a, n, i);
    }
  }

  lemma SetThenGetBit(t: Regs, slot: nat, a: Address, n: nat, i: nat)
    requires slot < 4 && n < 6 && i < 8 && t[2 * slot + 1] == LowWord(a)
    requires forall i :: 0 <= i < 16 ==> t[2 * slot][i] == HighWord(a)[i]
    ensures GetByte(t, slot, n)[i] == a[n][i]
  {
    ByteSource(t, slot, n, i);
    if n < 4 {
      LowWordByte(a, n, i);
    } else {
      HighWordByte(a, n, i);
    }
    hide GetByte, LowWord, HighWord;
  }

  lemma FilterKeepsAddress(regs: Regs, op: Op)
    requires Allowed(op) && !op.Set? && Clean(op)
    ensures GetAddress(Apply(regs, op), op.slot) == GetAddress(regs, op.slot)
  {
    SameAddress(Apply(regs, op), regs, op.slot);
  }

  lemma OtherSlotKept(regs: Regs, op: Op, slot: nat)
    requires Allowed(op) && slot < 4 && slot != op.slot
    ensures Apply(regs, op)[2 * slot] == regs[2 * slot] && Apply(regs, op)[2 * slot + 1] == regs[2 * slot + 1]
    ensures GetAddress(Apply(regs, op), slot) == GetAddress(regs, slot)
  {
    SameAddress(Apply(regs, op), regs, slot);
  }

  /** A filter configuration keeps the address of its slot, whatever it is, if and only if the mask and the
      type it is given have no bit among the 16 address bits. */
  lemma ConfigKeepsAddressIff(op: Op)
    requires Allowed(op) && op.FilterConfig?
    ensures (forall regs: Regs :: GetAddress(Apply(regs, op), op.slot) == GetAddress(regs, op.slot)) <==> Clean(op)
  {
    if Clean(op) {
      forall regs: Regs
        ensures GetAddress(Apply(regs, op), op.slot) == GetAddress(regs, op.slot)
      {
        FilterKeepsAddress(regs, op);
      }
    } else {
      var i :| 0 <= i < 16 && (op.mask[i] || op.kind[i]);
      var regs: Regs := seq(8, _ => Zero());
      ConfigSetsBit(regs, op, i);
      assert !GetByte(regs, op.slot, 4 + i / 8)[i % 8];
      assert GetAddress(Apply(regs, op), op.slot)[4 + i / 8] != GetAddress(regs, op.slot)[4 + i / 8];
    }
  }

  lemma ConfigSetsBit(regs: Regs, op: Op, i: nat)
    requires Allowed(op) && op.FilterConfig? && i < 16 && (op.mask[i] || op.kind[i])
    ensures GetByte(Apply(regs, op), op.slot, 4 + i / 8)[i % 8]
  {
    var t := Apply(regs, op);
    assert t[2 * op.slot][i];
    assert 8 * ((4 + i / 8) % 4) + i % 8 == i;
  }

  function ApplyAll(regs: Regs, ops: seq<Op>): Regs
    requires forall op :: op in ops ==> Allowed(op)
  {
    if ops == [] then regs
    else
      assert ops[|ops| - 1] in ops;
      Apply(ApplyAll(regs, ops[..|ops| - 1]), ops[|ops| - 1])
  }

  // The address last set in a slot, or what it held before.
  function LastAddress(regs: Regs, ops: seq<Op>, slot: nat): Address
    requires slot < 4
  {
    if ops == [] then GetAddress(regs, slot)
    else
      var op := ops[|ops| - 1];
      if op.Set? && op.slot == slot then op.address else LastAddress(regs, ops[..|ops| - 1], slot)
  }

  /** Over any sequence of calls, each slot reads back the address last set in it. */
  lemma {:induction false} AddressesKept(regs: Regs, ops: seq<Op>, slot: nat)
    requires slot < 4 && forall op :: op in ops ==> Allowed(op) && Clean(op)
    ensures GetAddress(ApplyAll(regs, ops), slot) == LastAddress(regs, ops, slot)
    decreases |ops|
  {
    if ops != [] {
      var before := ops[..|ops| - 1];
      var op := ops[|ops| - 1];
      assert op in ops && forall o :: o in before ==> o in ops;
      AddressesKept(regs, before, slot);
      if op.slot != slot {
        OtherSlotKept(ApplyAll(regs, before), op, slot);
      } else if op.Set? {
        SetThenGet(ApplyAll(regs, before), slot, op.address);
      } else {
        FilterKeepsAddress(ApplyAll(regs, before), op);
      }
    }
  }

  /** Setting an address switches its slot's filter off, drops the byte mask and selects the destination
      address: the whole high register is overwritten. */
  lemma SetClearsFilter(regs: Regs, slot: nat, a: Address)
    requires 0 < slot < 4
    ensures var h := High(Apply(regs, Set(slot, a)), slot);
            !h[31] && !h[30] && GetBits(h, MB) == Zero()
  {
    var h := High(Apply(regs, Set(slot, a)), slot);
    assert h == HighWord(a);
    assert forall i :: 0 <= i < 32 ==> GetBits(h, MB)[i] == Zero()[i];
  }

  /** The registers and the driver calls on them. */
  class MacRegisters {
    var regs: Regs

    // REG32(address) = w
    method StoreWord(address: nat, w: Word)
      requires 0x40 <= address < 0x60 && address % 4 == 0
      modifies this
      ensures regs == Store(old(regs), address, w)
    {
      regs := regs[Index(address) := if address == 0x40 then Or(w, Bit(31)) else w];
    }

    /** enet_mac_address_set */
    method AddressSet(slot: nat, a: Address)
      requires slot < 4
      modifies this
      ensures regs == Apply(old(regs), Set(slot, a)) && GetAddress(regs, slot) == a
    {
      SetThenGet(regs, slot, a);
      StoreWord(ADDRH_BASE + Offset(slot), HighWord(a));
      StoreWord(ADDRL_BASE + Offset(slot), LowWord(a));
    }

    /** enet_mac_address_get */
    method AddressGet(slot: nat) returns (a: Address)
      requires slot < 4
      ensures a == GetAddress(regs, slot)
    {
      a := [GetByte(regs, slot, 0), GetByte(regs, slot, 1), GetByte(regs, slot, 2),
            GetByte(regs, slot, 3), GetByte(regs, slot, 4), GetByte(regs, slot, 5)];
    }

    /** enet_address_filter_enable */
    method AddressFilterEnable(slot: nat)
      requires 0 < slot < 4
      modifies this
      ensures regs == Apply(old(regs), FilterEnable(slot)) && GetAddress(regs, slot) == old(GetAddress(regs, slot))
      ensures High(regs, slot) == old(High(regs, slot))[31 := true]
    {
      FilterKeepsAddress(regs, FilterEnable(slot));
      StoreWord(ADDRH_BASE + Offset(slot), Or(High(regs, slot), Bit(31)));
    }

    /** enet_address_filter_disable */
    method AddressFilterDisable(slot: nat)
      requires 0 < slot < 4
      modifies this
      ensures regs == Apply(old(regs), FilterDisable(slot)) && GetAddress(regs, slot) == old(GetAddress(regs, slot))
      ensures High(regs, slot) == old(High(regs, slot))[31 := false]
    {
      FilterKeepsAddress(regs, FilterDisable(slot));
      StoreWord(ADDRH_BASE + Offset(slot), And(High(regs, slot), Not(Bit(31))));
    }

    /** enet_address_filter_config */
    method AddressFilterConfig(slot: nat, mask: Word, kind: Word)
      requires 0 < slot < 4
      modifies this
      ensures regs == Apply(old(regs), FilterConfig(slot, mask, kind))
      ensures forall i :: 0 <= i < 32 ==>
                High(regs, slot)[i] == (mask[i] || kind[i] || (!(24 <= i <= 30) && old(High(regs, slot))[i]))
    {
      var reg := High(regs, slot);
      reg := And(reg, Not(Or(Mask(MB), Bit(30))));
      reg := Or(reg, Or(mask, kind));
      StoreWord(ADDRH_BASE + Offset(slot), reg);
    }
  }
}
