/** Priority encoding of core_cm4.h, for any number of implemented priority bits up to 8. */
module Priorities {
  import opened Words

  // How many bits a grouping gives to pre-emption and to subpriority; only its low three bits are used.
  function PreemptBits(group: nat, prioBits: nat): nat {
    if 7 - group % 8 > prioBits then prioBits else 7 - group % 8
  }

  function SubBits(group: nat, prioBits: nat): nat {
    if group % 8 + prioBits < 7 then 0 else group % 8 - 7 + prioBits
  }

  /** Pre-emption gets as many bits as the grouping and the implementation both allow, subpriority the rest. */
  lemma Widths(group: nat, prioBits: nat)
    ensures var p := PreemptBits(group, prioBits);
            && p <= prioBits && p + group % 8 <= 7
            && (p == prioBits || p + group % 8 == 7)
            && SubBits(group, prioBits) == prioBits - p
  {
  }

  // NVIC_EncodePriority
  function Encode(group: nat, preempt: Word, sub: Word, prioBits: nat): Word
  {
    var p, s := PreemptBits(group, prioBits), SubBits(group, prioBits);
    Or(Shl(And(preempt, LowMask(p)), s), And(sub, LowMask(s)))
  }

  // NVIC_DecodePriority
  function Decode(priority: Word, group: nat, prioBits: nat): (Word, Word)
  {
    var p, s := PreemptBits(group, prioBits), SubBits(group, prioBits);
    (And(Shr(priority, s), LowMask(p)), And(priority, LowMask(s)))
  }

  lemma WidthsSum(group: nat, prioBits: nat)
    ensures PreemptBits(group, prioBits) + SubBits(group, prioBits) == prioBits
  {
  }

  /** Decoding an encoded priority gives both values reduced to the widths of the group. */
  lemma DecodeEncode(group: nat, preempt: Word, sub: Word, prioBits: nat)
    requires prioBits <= 8
    ensures var p, s := PreemptBits(group, prioBits), SubBits(group, prioBits);
            Decode(Encode(group, preempt, sub, prioBits), group, prioBits)
            == (And(preempt, LowMask(p)), And(sub, LowMask(s)))
  {
    var p, s := PreemptBits(group, prioBits), SubBits(group, prioBits);
    var e := Encode(group, preempt, sub, prioBits);
    var d := Decode(e, group, prioBits);
    assert d.0 == And(preempt, LowMask(p));
    assert d.1 == And(sub, LowMask(s));
  }

  /** Encoding what was decoded gives the implemented bits back. */
  lemma EncodeDecode(group: nat, priority: Word, prioBits: nat)
    requires prioBits <= 8
    ensures var d := Decode(priority, group, prioBits);
            Encode(group, d.0, d.1, prioBits) == And(priority, LowMask(prioBits))
  {
    WidthsSum(group, prioBits);
    var d := Decode(priority, group, prioBits);
    var e := Encode(group, d.0, d.1, prioBits);
    assert forall i :: 0 <= i < 32 ==> e[i] == And(priority, LowMask(prioBits))[i];
  }

  // The number that a priority is: pre-emption counts 2^s, subpriority counts 1.
  lemma EncodeValue(group: nat, preempt: Word, sub: Word, prioBits: nat)
    requires prioBits <= 8
    ensures var p, s := PreemptBits(group, prioBits), SubBits(group, prioBits);
            Value(Encode(group, preempt, sub, prioBits))
            == Value(sub) % Pow2(s) + Pow2(s) * (Value(preempt) % Pow2(p))
  {
    var p, s := PreemptBits(group, prioBits), SubBits(group, prioBits);
    var e := Encode(group, preempt, sub, prioBits);
    ValueLow(e, s + p);
    assert e[..s + p] == sub[..s] + preempt[..p];
    ValueAppend(sub[..s], preempt[..p]);
    ValueMod(sub, s);
    ValueMod(preempt, p);
  }

  lemma Lexicographic(q: nat, r: nat, q': nat, r': nat, m: nat)
    requires r < m && r' < m
    ensures r + m * q < r' + m * q' <==> q < q' || (q == q' && r < r')
  {
    if q < q' {
      SmallerQuotient(q, q', m, r, r');
    } else if q' < q {
      SmallerQuotient(q', q, m, r', r);
    }
  }

  /** Encoded priorities order by pre-emption priority first and by subpriority second. */
  lemma EncodedOrder(group: nat, preempt: Word, sub: Word, preempt': Word, sub': Word, prioBits: nat)
    requires prioBits <= 8
    ensures var p, s := Pow2(PreemptBits(group, prioBits)), Pow2(SubBits(group, prioBits));
            Value(Encode(group, preempt, sub, prioBits)) < Value(Encode(group, preempt', sub', prioBits))
            <==> (Value(preempt) % p < Value(preempt') % p
                  || (Value(preempt) % p == Value(preempt') % p && Value(sub) % s < Value(sub') % s))
  {
    var p, s := Pow2(PreemptBits(group, prioBits)), Pow2(SubBits(group, prioBits));
    EncodeValue(group, preempt, sub, prioBits);
    EncodeValue(group, preempt', sub', prioBits);
    hide Encode, Value;
    Lexicographic(Value(preempt) % p, Value(sub) % s, Value(preempt') % p, Value(sub') % s, s);
  }

  // NVIC_SetPriority's byte and NVIC_GetPriority's reading of it
  function PriorityByte(priority: Word, prioBits: nat): Byte
    requires prioBits <= 8
  {
    Low8(And(Shl(priority, 8 - prioBits), LowMask(8)))
  }

  function PriorityOf(b: Byte, prioBits: nat): Word
    requires prioBits <= 8
  {
    Shr(Extend(b), 8 - prioBits)
  }

  lemma PriorityRoundTrip(priority: Word, prioBits: nat)
    requires prioBits <= 8
    ensures PriorityOf(PriorityByte(priority, prioBits), prioBits) == And(priority, LowMask(prioBits))
  {
    var r := PriorityOf(PriorityByte(priority, prioBits), prioBits);
    assert forall i :: 0 <= i < 32 ==> r[i] == And(priority, LowMask(prioBits))[i];
  }

  /** The implemented bits are the upper ones of the byte. */
  lemma PriorityByteBits(priority: Word, prioBits: nat, i: nat)
    requires prioBits <= 8 && i < 8
    ensures PriorityByte(priority, prioBits)[i] == (8 - prioBits <= i && priority[i - (8 - prioBits)])
  {
  }

  lemma EncodeFits(group: nat, preempt: Word, sub: Word, prioBits: nat)
    requires prioBits <= 8
    ensures And(Encode(group, preempt, sub, prioBits), LowMask(prioBits)) == Encode(group, preempt, sub, prioBits)
  {
    var e := Encode(group, preempt, sub, prioBits);
    WidthsSum(group, prioBits);
    assert forall i :: 0 <= i < 32 ==> And(e, LowMask(prioBits))[i] == e[i];
  }

  // gd32f4xx_misc.c: the byte nvic_irq_enable stores, for 4 priority bits split as `pre` and 4 - pre
  function EnableByte(preempt: Byte, sub: Byte, pre: nat): Byte
    requires pre <= 4
  {
    var shifted := Shl(Extend(preempt), 4 - pre);
    Low8(Shl(Or(shifted, And(Extend(sub), Shr(LowMask(4), 4 - (4 - pre)))), 4))
  }

  /** nvic_irq_enable does not cut the pre-emption priority to its width, but storing the result in a byte
      does: it stores what NVIC_SetPriority would store for the encoded pair. */
  lemma EnableByteIsEncoded(group: nat, preempt: Byte, sub: Byte)
    requires 3 <= group < 8
    ensures EnableByte(preempt, sub, 7 - group) == PriorityByte(Encode(group, Extend(preempt), Extend(sub), 4), 4)
  {
    forall i | 0 <= i < 8
      ensures EnableByte(preempt, sub, 7 - group)[i]
              == PriorityByte(Encode(group, Extend(preempt), Extend(sub), 4), 4)[i]
    {
      EnableBit(group, preempt, sub, i);
    }
  }

  lemma EnableBit(group: nat, preempt: Byte, sub: Byte, i: nat)
    requires 3 <= group < 8 && i < 8
    ensures EnableByte(preempt, sub, 7 - group)[i]
            == PriorityByte(Encode(group, Extend(preempt), Extend(sub), 4), 4)[i]
  {
    var pre := 7 - group;
    assert group % 8 == group && PreemptBits(group, 4) == pre && SubBits(group, 4) == 4 - pre;
    hide PreemptBits, SubBits;
    if i >= 4 {
      assert PriorityByte(Encode(group, Extend(preempt), Extend(sub), 4), 4)[i]
          == Encode(group, Extend(preempt), Extend(sub), 4)[i - 4];
    }
  }
}

/**
 The NVIC access functions of core_cm4.h and gd32f4xx_misc.c over the register words, with the hardware's
 side of the registers: set-enable and set-pending registers set the bits written as 1 and leave the rest,
 the clear registers clear them (section B3.4 of the ARMv7-M Architecture Reference Manual), and AIRCR
 ignores writes without the key (section B3.2.6).
 */
module Nvic {
  import opened Words
  import opened Fields
  import opened Priorities

  type Words8 = w: seq<Word> | |w| == 8 witness seq(8, _ => seq(32, _ => false))

  datatype Regs = Regs(enable: Words8, pend: Words8, ip: seq<Byte>, shp: seq<Byte>, aircr: Word) {
    predicate Valid() {
      |ip| == 240 && |shp| == 12
    }
  }

  const PRIGROUP := Field(8, 10)
  const VECTKEY := Field(16, 31)

  // ---- Hardware -------------------------------------------------------------------------------------

  function WriteOneToSet(words: Words8, k: nat, w: Word): Words8
    requires k < 8
  {
    words[k := Or(words[k], w)]
  }

  function WriteOneToClear(words: Words8, k: nat, w: Word): Words8
    requires k < 8
  {
    words[k := And(words[k], Not(w))]
  }

  // 0x5FA, and 0xFA05 as it reads back
  function Key(): Word {
    Or(Or(Or(Bit(1), Bit(3)), Or(Bit(4), Bit(5))), Or(Or(Bit(6), Bit(7)), Or(Bit(8), Bit(10))))
  }

  function KeyStatus(): Word {
    Or(Or(Or(Bit(0), Bit(2)), Or(Bit(9), Bit(11))), Or(Or(Bit(12), Bit(13)), Or(Bit(14), Bit(15))))
  }

  predicate HasKey(w: Word) {
    forall i :: 16 <= i < 32 ==> w[i] == Key()[i - 16]
  }

  lemma KeyBit(i: nat)
    requires i < 32
    ensures Key()[i] == (i == 1 || 3 <= i <= 8 || i == 10)
  {
  }

  /** The key is 0x5FA. */
  lemma KeyValue()
    ensures Value(Key()) == 0x5FA
  {
    var w := Key();
    forall i | 0 <= i < 32
      ensures w[i] == (i == 1 || 3 <= i <= 8 || i == 10)
    {
      KeyBit(i);
    }
    hide Key, Value, Pow2;
    ThreeDigits(w);
    FourBits(w[..4]);
    FourBits(w[4..8]);
    FourBits(w[8..12]);
  }

  lemma ThreeDigits(w: Word)
    requires forall i :: 12 <= i < 32 ==> !w[i]
    ensures Value(w) == Value(w[..4]) + 16 * (Value(w[4..8]) + 16 * Value(w[8..12]))
  {
    ValueLow(w, 12);
    assert w[..12] == w[..4] + (w[4..8] + w[8..12]);
    ValueAppend(w[..4], w[4..8] + w[8..12]);
    ValueAppend(w[4..8], w[8..12]);
    FourBits(w[..4]);
    hide Value, Pow2;
  }

  lemma FourBits(b: seq<bool>)
    requires |b| == 4
    ensures Value(b) == (if b[0] then 1 else 0) + (if b[1] then 2 else 0) + (if b[2] then 4 else 0) + (if b[3] then 8 else 0)
    ensures Pow2(4) == 16
  {
    var c, d := b[1..], b[2..];
    assert c[1..] == d && d[1..] == [b[3]] && [b[3]][1..] == [];
    assert Value([b[3]]) == if b[3] then 1 else 0;
    assert Value(d) == (if b[2] then 1 else 0) + 2 * Value([b[3]]);
    assert Value(c) == (if b[1] then 1 else 0) + 2 * Value(d);
    assert Value(b) == (if b[0] then 1 else 0) + 2 * Value(c);
    assert Pow2(1) == 2 && Pow2(2) == 4 && Pow2(3) == 8;
  }

  // Without the key nothing happens; the endianness bit 15 is read-only.
  function WriteAircr(aircr: Word, w: Word): (r: Word)
    ensures HasKey(w) ==> forall i :: 0 <= i < 15 ==> r[i] == w[i]
    ensures HasKey(w) ==> r[15] == aircr[15]
    ensures !HasKey(w) ==> r == aircr
  {
    if HasKey(w)
    then Or(Or(Shl(KeyStatus(), 16), And(aircr, Bit(15))), And(w, LowMask(15)))
    else aircr
  }

  // ---- The access functions on words ----------------------------------------------------------------

  datatype Op =
    | Enable(irq: int)
    | Disable(irq: int)
    | SetPending(irq: int)
    | ClearPending(irq: int)
    | SetPriority(irq: int, priority: Word)
    | SetGrouping(group: Word)
    | IrqEnable(irq: int, preempt: Byte, sub: Byte)       // nvic_irq_enable

  // Device interrupts have numbers 0 to 239; the core's with a priority register -12 to -1.
  predicate Allowed(op: Op, prioBits: nat) {
    match op
    case SetPriority(irq, _) => -12 <= irq < 240
    case SetGrouping(_) => true
    case IrqEnable(irq, _, _) => 0 <= irq < 240 && prioBits == 4
    case _ => 0 <= op.irq < 240
  }

  function Grouping(aircr: Word): Word {
    GetBits(aircr, PRIGROUP)
  }

  // NVIC_SetPriorityGrouping
  function WithGrouping(aircr: Word, group: Word): Word {
    var cleared := And(aircr, Not(Or(Mask(VECTKEY), Mask(PRIGROUP))));
    WriteAircr(aircr, Or(Or(cleared, Shl(Key(), 16)), Shl(And(group, LowMask(3)), 8)))
  }

  // nvic_priority_group_set
  function WithGroupOnly(aircr: Word, group: Word): Word {
    WriteAircr(aircr, Or(Shl(Key(), 16), Shl(group, 8)))
  }

  function Five(): Word {
    Or(Bit(0), Bit(2))
  }

  function GroupNumber(aircr: Word): (g: nat)
    ensures g < 8
  {
    ValueBound(Grouping(aircr)[..3]);
    ValueLow(Grouping(aircr), 3);
    assert Pow2(3) == 8 by {
      assert Pow2(1) == 2;
      assert Pow2(2) == 4;
    }
    Value(Grouping(aircr))
  }

  function StorePriority(r: Regs, irq: int, b: Byte): Regs
    requires r.Valid() && -12 <= irq < 240
  {
    if irq < 0 then r.(shp := r.shp[irq % 16 - 4 := b]) else r.(ip := r.ip[irq := b])
  }

  function LoadPriority(r: Regs, irq: int): Byte
    requires r.Valid() && -12 <= irq < 240
  {
    if irq < 0 then r.shp[irq % 16 - 4] else r.ip[irq]
  }

  // nvic_irq_enable up to the enabling itself
  function PrepareIrq(r: Regs, irq: int, preempt: Byte, sub: Byte): Regs
    requires r.Valid() && 0 <= irq < 240
  {
    var g := GroupNumber(r.aircr);
    if g >= 3 then StorePriority(r, irq, EnableByte(preempt, sub, 7 - g))
    else StorePriority(r.(aircr := WithGroupOnly(r.aircr, Five())), irq, EnableByte(preempt, sub, 2))
  }

  function Step(r: Regs, op: Op, prioBits: nat): (r': Regs)
    requires r.Valid() && Allowed(op, prioBits) && prioBits <= 8
    ensures r'.Valid()
  {
    match op
    case Enable(irq) => r.(enable := WriteOneToSet(r.enable, irq / 32, Bit(irq % 32)))
    case Disable(irq) => r.(enable := WriteOneToClear(r.enable, irq / 32, Bit(irq % 32)))
    case SetPending(irq) => r.(pend := WriteOneToSet(r.pend, irq / 32, Bit(irq % 32)))
    case ClearPending(irq) => r.(pend := WriteOneToClear(r.pend, irq / 32, Bit(irq % 32)))
    case SetPriority(irq, priority) => StorePriority(r, irq, PriorityByte(priority, prioBits))
    case SetGrouping(group) => r.(aircr := WithGrouping(r.aircr, group))
    case IrqEnable(irq, preempt, sub) =>
      var p := PrepareIrq(r, irq, preempt, sub);
      p.(enable := WriteOneToSet(p.enable, irq / 32, Bit(irq % 32)))
  }

  // ---- What they mean -------------------------------------------------------------------------------

  // The abstract controller: which interrupts are enabled and pending, every priority, and the grouping.
  datatype View = View(enabled: set<int>, pending: set<int>, priority: map<int, Word>, group: Word)

  predicate BitAt(words: Words8, irq: nat)
    requires irq < 240
  {
    words[irq / 32][irq % 32]
  }

  function Members(words: Words8): (s: set<int>)
    ensures forall n :: n in s <==> 0 <= n < 240 && BitAt(words, n)
  {
    set n: int | 0 <= n < 240 && BitAt(words, n)
  }

  function Prioritised(r: Regs, prioBits: nat): (m: map<int, Word>)
    requires r.Valid() && prioBits <= 8
    ensures forall n :: n in m <==> -12 <= n < 240
    ensures forall n :: n in m ==> m[n] == PriorityOf(LoadPriority(r, n), prioBits)
  {
    map n: int | -12 <= n < 240 :: PriorityOf(LoadPriority(r, n), prioBits)
  }

  function ViewOf(r: Regs, prioBits: nat): View
    requires r.Valid() && prioBits <= 8
  {
    View(Members(r.enable), Members(r.pend), Prioritised(r, prioBits), Grouping(r.aircr))
  }

  function GroupOf(v: View): nat {
    Value(v.group)
  }

  // Each call changes one interrupt, or the grouping; nvic_irq_enable replaces a grouping that gives more
  // than 4 bits to pre-emption by the one with 2 and 2.
  function ViewStep(v: View, op: Op, prioBits: nat): View
  {
    match op
    case Enable(irq) => v.(enabled := v.enabled + {irq})
    case Disable(irq) => v.(enabled := v.enabled - {irq})
    case SetPending(irq) => v.(pending := v.pending + {irq})
    case ClearPending(irq) => v.(pending := v.pending - {irq})
    case SetPriority(irq, priority) => v.(priority := v.priority[irq := And(priority, LowMask(prioBits))])
    case SetGrouping(group) => v.(group := And(group, LowMask(3)))
    case IrqEnable(irq, preempt, sub) =>
      var w := if GroupOf(v) >= 3 then v else v.(group := Five());
      var g := if GroupOf(v) >= 3 then GroupOf(v) else 5;
      w.(enabled := v.enabled + {irq},
         priority := v.priority[irq := Encode(g, Extend(preempt), Extend(sub), 4)])
  }

  lemma MembersSet(words: Words8, irq: int)
    requires 0 <= irq < 240
    ensures Members(WriteOneToSet(words, irq / 32, Bit(irq % 32))) == Members(words) + {irq}
  {
    var t := WriteOneToSet(words, irq / 32, Bit(irq % 32));
    forall n | 0 <= n < 240
      ensures BitAt(t, n) == (BitAt(words, n) || n == irq)
    {
    }
  }

  lemma MembersClear(words: Words8, irq: int)
    requires 0 <= irq < 240
    ensures Members(WriteOneToClear(words, irq / 32, Bit(irq % 32))) == Members(words) - {irq}
  {
    var t := WriteOneToClear(words, irq / 32, Bit(irq % 32));
    forall n | 0 <= n < 240
      ensures BitAt(t, n) == (BitAt(words, n) && n != irq)
    {
    }
  }

  lemma StoreLoad(r: Regs, irq: int, b: Byte, n: int)
    requires r.Valid() && -12 <= irq < 240 && -12 <= n < 240
    ensures LoadPriority(StorePriority(r, irq, b), n) == if n == irq then b else LoadPriority(r, n)
  {
  }

  /** The byte of a device interrupt is IP[irq], that of core interrupts -12 to -1 is SHP[0] to SHP[11]. */
  lemma PriorityRegister(r: Regs, irq: int, b: Byte)
    requires r.Valid() && -12 <= irq < 240
    ensures StorePriority(r, irq, b) == if irq < 0 then r.(shp := r.shp[irq + 12 := b]) else r.(ip := r.ip[irq := b])
  {
  }

  lemma StoreRefines(r: Regs, irq: int, b: Byte, prioBits: nat)
    requires r.Valid() && -12 <= irq < 240 && prioBits <= 8
    ensures Prioritised(StorePriority(r, irq, b), prioBits) == Prioritised(r, prioBits)[irq := PriorityOf(b, prioBits)]
  {
    var m := Prioritised(StorePriority(r, irq, b), prioBits);
    forall n | -12 <= n < 240
      ensures m[n] == Prioritised(r, prioBits)[irq := PriorityOf(b, prioBits)][n]
    {
      StoreLoad(r, irq, b, n);
    }
  }

  lemma GroupingSet(aircr: Word, group: Word)
    ensures Grouping(WithGrouping(aircr, group)) == And(group, LowMask(3))
    ensures forall i :: 0 <= i < 16 && !(8 <= i <= 10) ==> WithGrouping(aircr, group)[i] == aircr[i]
  {
    var cleared := And(aircr, Not(Or(Mask(VECTKEY), Mask(PRIGROUP))));
    var w := Or(Or(cleared, Shl(Key(), 16)), Shl(And(group, LowMask(3)), 8));
    hide Key;
    assert HasKey(w);
  }

  lemma GroupOnlySet(aircr: Word, group: Word)
    requires forall i :: 3 <= i < 32 ==> !group[i]
    ensures Grouping(WithGroupOnly(aircr, group)) == group
  {
    var w := Or(Shl(Key(), 16), Shl(group, 8));
    hide Key;
    assert HasKey(w);
  }

  lemma FiveValue()
    ensures Value(Five()) == 5
  {
    ValueLow(Five(), 3);
    var b := Five()[..3];
    assert b == [true, false, true] && b[1..] == [false, true] && b[1..][1..] == [true];
    assert Value([true]) == 1 && Value([false, true]) == 2;
  }

  lemma PrepareRefines(r: Regs, irq: int, preempt: Byte, sub: Byte)
    requires r.Valid() && 0 <= irq < 240
    ensures var p, g := PrepareIrq(r, irq, preempt, sub), GroupNumber(r.aircr);
            && p.Valid() && p.enable == r.enable && p.pend == r.pend
            && Grouping(p.aircr) == (if g >= 3 then Grouping(r.aircr) else Five())
            && Prioritised(p, 4) == Prioritised(r, 4)[irq := Encode(if g >= 3 then g else 5, Extend(preempt), Extend(sub), 4)]
  {
    hide Encode;
    if GroupNumber(r.aircr) >= 3 {
      PrepareKnown(r, irq, preempt, sub);
    } else {
      PrepareUnknown(r, irq, preempt, sub);
    }
    hide *;
  }

  lemma EnableByteMeans(group: nat, preempt: Byte, sub: Byte)
    requires 3 <= group < 8
    ensures PriorityOf(EnableByte(preempt, sub, 7 - group), 4) == Encode(group, Extend(preempt), Extend(sub), 4)
  {
    EnableByteIsEncoded(group, preempt, sub);
    PriorityRoundTrip(Encode(group, Extend(preempt), Extend(sub), 4), 4);
    EncodeFits(group, Extend(preempt), Extend(sub), 4);
    hide *;
  }

  lemma PrepareKnown(r: Regs, irq: int, preempt: Byte, sub: Byte)
    requires r.Valid() && 0 <= irq < 240 && GroupNumber(r.aircr) >= 3
    ensures var p := PrepareIrq(r, irq, preempt, sub);
            && p.Valid() && p.enable == r.enable && p.pend == r.pend && Grouping(p.aircr) == Grouping(r.aircr)
            && Prioritised(p, 4) == Prioritised(r, 4)[irq := Encode(GroupNumber(r.aircr), Extend(preempt), Extend(sub), 4)]
  {
    hide EnableByte, PriorityOf, Encode, GroupNumber, Grouping;
    var g := GroupNumber(r.aircr);
    EnableByteMeans(g, preempt, sub);
    StoreRefines(r, irq, EnableByte(preempt, sub, 7 - g), 4);
  }

  lemma PrepareUnknown(r: Regs, irq: int, preempt: Byte, sub: Byte)
    requires r.Valid() && 0 <= irq < 240 && GroupNumber(r.aircr) < 3
    ensures var p := PrepareIrq(r, irq, preempt, sub);
            && p.Valid() && p.enable == r.enable && p.pend == r.pend && Grouping(p.aircr) == Five()
            && Prioritised(p, 4) == Prioritised(r, 4)[irq := Encode(5, Extend(preempt), Extend(sub), 4)]
  {
    GroupOnlySet(r.aircr, Five());
    EnableByteMeans(5, preempt, sub);
    hide EnableByte, PriorityOf, Encode, GroupNumber, Grouping, WithGroupOnly, Five, Prioritised, StorePriority;
    var s := r.(aircr := WithGroupOnly(r.aircr, Five()));
    SamePriorities(r, s, 4);
    StoreRefines(s, irq, EnableByte(preempt, sub, 2), 4);
    UnknownPrepared(r, irq, preempt, sub);
    StoreKeepsRest(s, irq, EnableByte(preempt, sub, 2));
  }

  lemma UnknownPrepared(r: Regs, irq: int, preempt: Byte, sub: Byte)
    requires r.Valid() && 0 <= irq < 240 && GroupNumber(r.aircr) < 3
    ensures PrepareIrq(r, irq, preempt, sub)
            == StorePriority(r.(aircr := WithGroupOnly(r.aircr, Five())), irq, EnableByte(preempt, sub, 2))
  {
    hide EnableByte, GroupNumber, WithGroupOnly, StorePriority;
  }

  lemma StoreKeepsRest(r: Regs, irq: int, b: Byte)
    requires r.Valid() && -12 <= irq < 240
    ensures var t := StorePriority(r, irq, b);
            t.Valid() && t.enable == r.enable && t.pend == r.pend && t.aircr == r.aircr
  {
  }

  /** Every access function does to the abstract controller what it says, and nothing else. */
  lemma StepRefines(r: Regs, op: Op, prioBits: nat)
    requires r.Valid() && Allowed(op, prioBits) && prioBits <= 8
    ensures ViewOf(Step(r, op, prioBits), prioBits) == ViewStep(ViewOf(r, prioBits), op, prioBits)
  {
    assert GroupNumber(r.aircr) == GroupOf(ViewOf(r, prioBits));
    match op
    case Enable(irq) =>
      MembersSet(r.enable, irq);
      SamePriorities(r, Step(r, op, prioBits), prioBits);
    case Disable(irq) =>
      MembersClear(r.enable, irq);
      SamePriorities(r, Step(r, op, prioBits), prioBits);
    case SetPending(irq) =>
      MembersSet(r.pend, irq);
      SamePriorities(r, Step(r, op, prioBits), prioBits);
    case ClearPending(irq) =>
      MembersClear(r.pend, irq);
      SamePriorities(r, Step(r, op, prioBits), prioBits);
    case SetPriority(irq, priority) =>
      StoreRefines(r, irq, PriorityByte(priority, prioBits), prioBits);
      PriorityRoundTrip(priority, prioBits);
    case SetGrouping(group) =>
      GroupingSet(r.aircr, group);
      SamePriorities(r, Step(r, op, prioBits), prioBits);
    case IrqEnable(irq, preempt, sub) =>
      IrqEnableRefines(r, op, prioBits);
  }

  lemma SamePriorities(r: Regs, t: Regs, prioBits: nat)
    requires r.Valid() && t.ip == r.ip && t.shp == r.shp && prioBits <= 8
    ensures Prioritised(t, prioBits) == Prioritised(r, prioBits)
  {
  }

  lemma IrqEnableRefines(r: Regs, op: Op, prioBits: nat)
    requires r.Valid() && Allowed(op, prioBits) && prioBits <= 8 && op.IrqEnable?
    requires GroupNumber(r.aircr) == GroupOf(ViewOf(r, prioBits))
    ensures ViewOf(Step(r, op, prioBits), prioBits) == ViewStep(ViewOf(r, prioBits), op, prioBits)
  {
    PrepareRefines(r, op.irq, op.preempt, op.sub);
    MembersSet(r.enable, op.irq);
    var p := PrepareIrq(r, op.irq, op.preempt, op.sub);
    SamePriorities(p, Step(r, op, prioBits), prioBits);
    hide Encode, PrepareIrq, Prioritised, Members, Grouping;
  }

  function Run(r: Regs, ops: seq<Op>, prioBits: nat): (t: Regs)
    requires r.Valid() && prioBits <= 8 && forall op :: op in ops ==> Allowed(op, prioBits)
    ensures t.Valid()
    decreases |ops|
  {
    if ops == [] then r else Run(Step(r, ops[0], prioBits), ops[1..], prioBits)
  }

  // The same calls on the abstract controller.
  function ViewRun(v: View, ops: seq<Op>, prioBits: nat): View
    decreases |ops|
  {
    if ops == [] then v else ViewRun(ViewStep(v, ops[0], prioBits), ops[1..], prioBits)
  }

  /** Over any sequence of calls the register words refine the abstract controller. */
  lemma {:induction false} RunRefines(r: Regs, ops: seq<Op>, prioBits: nat)
    requires r.Valid() && prioBits <= 8 && forall op :: op in ops ==> Allowed(op, prioBits)
    ensures ViewOf(Run(r, ops, prioBits), prioBits) == ViewRun(ViewOf(r, prioBits), ops, prioBits)
    decreases |ops|
  {
    if ops != [] {
      StepRefines(r, ops[0], prioBits);
      RunRefines(Step(r, ops[0], prioBits), ops[1..], prioBits);
    }
  }

  // The interrupt a call is about.
  predicate About(op: Op, n: int) {
    !op.SetGrouping? && op.irq == n
  }

  /** A call that is about another interrupt leaves this one's enabling, pending bit and priority alone. */
  lemma {:induction false} OthersUntouched(v: View, ops: seq<Op>, prioBits: nat, n: int)
    requires n in v.priority && forall op :: op in ops ==> !About(op, n)
    ensures var w := ViewRun(v, ops, prioBits);
            && (n in w.enabled <==> n in v.enabled)
            && (n in w.pending <==> n in v.pending)
            && n in w.priority && w.priority[n] == v.priority[n]
    decreases |ops|
  {
    if ops != [] {
      assert ops[0] in ops;
      var w := ViewStep(v, ops[0], prioBits);
      assert n in w.priority && w.priority[n] == v.priority[n];
      OthersUntouched(w, ops[1..], prioBits, n);
    }
  }

  lemma OtherByteStays(r: Regs, op: Op, prioBits: nat, n: int)
    requires r.Valid() && Allowed(op, prioBits) && prioBits <= 8 && -12 <= n < 240 && !About(op, n)
    ensures LoadPriority(Step(r, op, prioBits), n) == LoadPriority(r, n)
  {
    match op
    case SetPriority(irq, priority) =>
      StoreLoad(r, irq, PriorityByte(priority, prioBits), n);
    case IrqEnable(irq, preempt, sub) =>
      var g := GroupNumber(r.aircr);
      if g >= 3 {
        StoreLoad(r, irq, EnableByte(preempt, sub, 7 - g), n);
      } else {
        StoreLoad(r.(aircr := WithGroupOnly(r.aircr, Five())), irq, EnableByte(preempt, sub, 2), n);
      }
    case _ =>
  }

  lemma {:induction false} OtherBytesStay(r: Regs, ops: seq<Op>, prioBits: nat, n: int)
    requires r.Valid() && prioBits <= 8 && -12 <= n < 240
    requires forall op :: op in ops ==> Allowed(op, prioBits) && !About(op, n)
    ensures LoadPriority(Run(r, ops, prioBits), n) == LoadPriority(r, n)
    decreases |ops|
  {
    if ops != [] {
      assert ops[0] in ops;
      OtherByteStays(r, ops[0], prioBits, n);
      hide Step, LoadPriority, Allowed, About;
      OtherBytesStay(Step(r, ops[0], prioBits), ops[1..], prioBits, n);
    }
  }

  /** On the registers: over any sequence of calls about other interrupts, an interrupt's enable bit, pending bit
      and whole priority byte stay as they are. */
  lemma OtherRegistersUntouched(r: Regs, ops: seq<Op>, prioBits: nat, n: int)
    requires r.Valid() && prioBits <= 8 && -12 <= n < 240
    requires forall op :: op in ops ==> Allowed(op, prioBits) && !About(op, n)
    ensures var t := Run(r, ops, prioBits);
            && LoadPriority(t, n) == LoadPriority(r, n)
            && (0 <= n ==> BitAt(t.enable, n) == BitAt(r.enable, n) && BitAt(t.pend, n) == BitAt(r.pend, n))
  {
    var t := Run(r, ops, prioBits);
    OtherBytesStay(r, ops, prioBits, n);
    RunRefines(r, ops, prioBits);
    assert n in ViewOf(r, prioBits).priority;
    OthersUntouched(ViewOf(r, prioBits), ops, prioBits, n);
    hide Run, ViewRun, Prioritised;
    if 0 <= n {
      assert n in Members(t.enable) <==> n in Members(r.enable);
      assert n in Members(t.pend) <==> n in Members(r.pend);
    }
  }

  /** nvic_irq_enable leaves the grouping, and so the meaning of all other priorities, alone if and only if
      the grouping is one of the five it knows. */
  lemma GroupingKeptIff(r: Regs, irq: int, preempt: Byte, sub: Byte)
    requires r.Valid() && 0 <= irq < 240
    ensures Grouping(Step(r, IrqEnable(irq, preempt, sub), 4).aircr) == Grouping(r.aircr) <==> GroupNumber(r.aircr) >= 3
  {
    assert Step(r, IrqEnable(irq, preempt, sub), 4).aircr == PrepareIrq(r, irq, preempt, sub).aircr by {
      hide PrepareIrq;
    }
    if GroupNumber(r.aircr) >= 3 {
      PrepareKnown(r, irq, preempt, sub);
    } else {
      PrepareUnknown(r, irq, preempt, sub);
      UnknownIsNotFive(r.aircr);
    }
    hide *;
  }

  lemma UnknownIsNotFive(aircr: Word)
    requires GroupNumber(aircr) < 3
    ensures Grouping(aircr) != Five()
  {
    FiveValue();
    hide Grouping, Five, Value;
  }

  /** What nvic_irq_enable stores, NVIC_GetPriority and NVIC_DecodePriority give back, reduced to the widths
      of a grouping it knows. */
  lemma IrqEnableReadsBack(r: Regs, irq: int, preempt: Byte, sub: Byte)
    requires r.Valid() && 0 <= irq < 240 && GroupNumber(r.aircr) >= 3
    ensures var g := GroupNumber(r.aircr);
            var t := Step(r, IrqEnable(irq, preempt, sub), 4);
            Decode(PriorityOf(LoadPriority(t, irq), 4), g, 4)
            == (And(Extend(preempt), LowMask(7 - g)), And(Extend(sub), LowMask(g - 3)))
  {
    var g := GroupNumber(r.aircr);
    EnableByteMeans(g, preempt, sub);
    StoreLoad(r, irq, EnableByte(preempt, sub, 7 - g), irq);
    DecodeEncode(g, Extend(preempt), Extend(sub), 4);
    hide Decode, Encode, EnableByte, PriorityOf, GroupNumber;
  }

  /** NVIC_SystemReset's write has the key and keeps the grouping. */
  lemma ResetKeepsGrouping(aircr: Word)
    ensures var w := Or(Or(Shl(Key(), 16), And(aircr, Mask(PRIGROUP))), Bit(2));
            HasKey(w) && WriteAircr(aircr, w)[2] && Grouping(WriteAircr(aircr, w)) == Grouping(aircr)
  {
    var w := Or(Or(Shl(Key(), 16), And(aircr, Mask(PRIGROUP))), Bit(2));
    hide Key;
    assert HasKey(w);
  }

  // ---- The code -------------------------------------------------------------------------------------

  // w & (1 << k) is not 0 exactly when bit k is set
  lemma TestBit(w: Word, k: nat)
    requires k < 32
    ensures And(w, Bit(k)) != Zero() <==> w[k]
  {
    if w[k] {
      assert And(w, Bit(k))[k] && !Zero()[k];
    } else {
      assert forall i :: 0 <= i < 32 ==> And(w, Bit(k))[i] == Zero()[i];
    }
  }

  /** The registers, and the calls that change them in place. */
  class Controller {
    const prioBits: nat
    var enable: Words8              // behind ISER and ICER
    var pend: Words8                // behind ISPR and ICPR
    var ip: seq<Byte>
    var shp: seq<Byte>
    var aircr: Word

    ghost function Now(): Regs
      reads this
    {
      Regs(enable, pend, ip, shp, aircr)
    }

    ghost predicate Valid()
      reads this
    {
      Now().Valid() && prioBits <= 8
    }

    ghost function Seen(): View
      requires Valid()
      reads this
    {
      ViewOf(Now(), prioBits)
    }

    /** NVIC_EnableIRQ */
    method EnableIRQ(irq: int)
      requires Valid() && 0 <= irq < 240
      modifies `enable
      ensures Valid() && Seen() == old(Seen()).(enabled := old(Seen()).enabled + {irq})
    {
      StepRefines(Now(), Enable(irq), prioBits);
      hide ViewOf;
      enable := WriteOneToSet(enable, irq / 32, Bit(irq % 32));
      assert Now() == Step(old(Now()), Enable(irq), prioBits);
    }

    /** NVIC_DisableIRQ */
    method DisableIRQ(irq: int)
      requires Valid() && 0 <= irq < 240
      modifies `enable
      ensures Valid() && Seen() == old(Seen()).(enabled := old(Seen()).enabled - {irq})
    {
      StepRefines(Now(), Disable(irq), prioBits);
      hide ViewOf;
      enable := WriteOneToClear(enable, irq / 32, Bit(irq % 32));
      assert Now() == Step(old(Now()), Disable(irq), prioBits);
    }

    /** NVIC_GetPendingIRQ */
    method GetPendingIRQ(irq: int) returns (r: nat)
      requires Valid() && 0 <= irq < 240
      ensures r == if irq in Seen().pending then 1 else 0
    {
      TestBit(pend[irq / 32], irq % 32);
      r := if And(pend[irq / 32], Bit(irq % 32)) != Zero() then 1 else 0;
      assert BitAt(pend, irq) == pend[irq / 32][irq % 32];
      assert irq in Members(pend) <==> BitAt(pend, irq);
    }

    /** NVIC_SetPendingIRQ */
    method SetPendingIRQ(irq: int)
      requires Valid() && 0 <= irq < 240
      modifies `pend
      ensures Valid() && Seen() == old(Seen()).(pending := old(Seen()).pending + {irq})
    {
      StepRefines(Now(), SetPending(irq), prioBits);
      hide ViewOf;
      pend := WriteOneToSet(pend, irq / 32, Bit(irq % 32));
      assert Now() == Step(old(Now()), SetPending(irq), prioBits);
    }

    /** NVIC_ClearPendingIRQ */
    method ClearPendingIRQ(irq: int)
      requires Valid() && 0 <= irq < 240
      modifies `pend
      ensures Valid() && Seen() == old(Seen()).(pending := old(Seen()).pending - {irq})
    {
      StepRefines(Now(), ClearPending(irq), prioBits);
      hide ViewOf;
      pend := WriteOneToClear(pend, irq / 32, Bit(irq % 32));
      assert Now() == Step(old(Now()), ClearPending(irq), prioBits);
    }

    // The store of a priority byte
    method StoreByte(irq: int, b: Byte)
      requires Valid() && -12 <= irq < 240
      modifies `ip, `shp
      ensures Valid() && Now() == StorePriority(old(Now()), irq, b)
    {
      if irq < 0 {
        shp := shp[irq % 16 - 4 := b];
      } else {
        ip := ip[irq := b];
      }
    }

    /** NVIC_SetPriority */
    method SetPriorityIRQ(irq: int, priority: Word)
      requires Valid() && -12 <= irq < 240
      modifies `ip, `shp
      ensures Valid()
      ensures Seen() == old(Seen()).(priority := old(Seen()).priority[irq := And(priority, LowMask(prioBits))])
    {
      StepRefines(Now(), SetPriority(irq, priority), prioBits);
      hide ViewOf, StorePriority;
      StoreByte(irq, Low8(And(Shl(priority, 8 - prioBits), LowMask(8))));
      assert Now() == Step(old(Now()), SetPriority(irq, priority), prioBits);
    }

    /** NVIC_GetPriority */
    method GetPriority(irq: int) returns (priority: Word)
      requires Valid() && -12 <= irq < 240
      ensures irq in Seen().priority && priority == Seen().priority[irq]
    {
      priority := if irq < 0 then Shr(Extend(shp[irq % 16 - 4]), 8 - prioBits) else Shr(Extend(ip[irq]), 8 - prioBits);
      assert priority == PriorityOf(LoadPriority(Now(), irq), prioBits);
    }

    /** NVIC_SetPriorityGrouping */
    method SetPriorityGrouping(group: Word)
      requires Valid()
      modifies `aircr
      ensures Valid() && Seen() == old(Seen()).(group := And(group, LowMask(3)))
    {
      StepRefines(Now(), SetGrouping(group), prioBits);
      hide ViewOf, WriteAircr;
      var reg := aircr;
      reg := And(reg, Not(Or(Mask(VECTKEY), Mask(PRIGROUP))));
      reg := Or(Or(reg, Shl(Key(), 16)), Shl(And(group, LowMask(3)), 8));
      aircr := WriteAircr(aircr, reg);
      assert Now() == Step(old(Now()), SetGrouping(group), prioBits);
    }

    /** nvic_irq_enable */
    method IrqEnableWithPriority(irq: int, preempt: Byte, sub: Byte)
      requires Valid() && 0 <= irq < 240 && prioBits == 4
      modifies this
      ensures Valid()
      ensures Seen() == ViewStep(old(Seen()), IrqEnable(irq, preempt, sub), 4)
    {
      ghost var before := Now();
      StepRefines(before, IrqEnable(irq, preempt, sub), 4);
      hide ViewOf, StorePriority, EnableByte, GroupNumber, WithGroupOnly, ViewStep, GroupOf;
      Prepare(irq, preempt, sub);
      enable := WriteOneToSet(enable, irq / 32, Bit(irq % 32));
      assert Now() == Step(before, IrqEnable(irq, preempt, sub), 4);
    }

    // The grouping looked up or replaced, and the priority byte stored
    method Prepare(irq: int, preempt: Byte, sub: Byte)
      requires Valid() && 0 <= irq < 240
      modifies `aircr, `ip, `shp
      ensures Valid() && Now() == PrepareIrq(old(Now()), irq, preempt, sub)
    {
      var group := GroupNumber(aircr);
      var pre;
      hide StorePriority, EnableByte, GroupNumber, WriteAircr;
      if group >= 3 {
        pre := 7 - group;
      } else {
        aircr := WriteAircr(aircr, Or(Shl(Key(), 16), Shl(Five(), 8)));
        pre := 2;
      }
      StoreByte(irq, EnableByte(preempt, sub, pre));
    }
  }
}
