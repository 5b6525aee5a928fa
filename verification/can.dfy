/** CAN mailboxes (gd32f4xx_can.h, gd32f4xx_can.c): packing a message for sending, unpacking a received one. */
module Can {
  import opened Words
  import opened Fields

  type Data = d: seq<Byte> | |d| == 8 witness seq(8, _ => seq(8, _ => false))

  const SFID := Field(21, 31)
  const EFID := Field(3, 31)
  const DLENC := Field(0, 3)
  const FI := Field(8, 15)

  // The transmit message; tx_ff and tx_ft are each one of two constants, bit 2 and bit 1 or nothing.
  datatype TxMessage = TxMessage(sfid: Word, efid: Word, extended: bool, remote: bool, dlen: Byte, data: Data)

  datatype RxMessage = RxMessage(sfid: Word, efid: Word, extended: bool, remote: bool, dlen: Byte, data: Data, fi: Byte)

  // Identifier, property and data registers of a mailbox.
  datatype Mailbox = Mailbox(mi: Word, mp: Word, data0: Word, data1: Word)

  // CAN_FF_EXTENDED, CAN_FT_REMOTE, or 0
  function Flag(on: bool, k: nat): Word {
    if on then Bit(k) else Zero()
  }

  function ByteField(n: nat): (f: Field)
    requires n < 4
    ensures f.Valid()
  {
    Field(8 * n, 8 * n + 7)
  }

  // TMDATA0_DB3(..) | TMDATA0_DB2(..) | TMDATA0_DB1(..) | TMDATA0_DB0(..), and the same for the second word
  function PackBytes(d0: Byte, d1: Byte, d2: Byte, d3: Byte): Word {
    Or(Or(Or(Place(ByteField(3), Extend(d3)), Place(ByteField(2), Extend(d2))), Place(ByteField(1), Extend(d1))),
       Place(ByteField(0), Extend(d0)))
  }

  // The identifier register with the message's identifier and flags; the enable bit stays.
  function PutId(mi: Word, m: TxMessage): Word {
    if !m.extended then Or(And(mi, Bit(0)), Or(Place(SFID, m.sfid), Flag(m.remote, 1)))
    else Or(And(mi, Bit(0)), Or(Or(Place(EFID, m.efid), Bit(2)), Flag(m.remote, 1)))
  }

  // Data length and data in, and transmission enabled.
  function PutRest(b: Mailbox, m: TxMessage): Mailbox {
    Mailbox(Or(b.mi, Bit(0)), Or(And(b.mp, Not(Mask(DLENC))), Extend(m.dlen)),
            PackBytes(m.data[0], m.data[1], m.data[2], m.data[3]),
            PackBytes(m.data[4], m.data[5], m.data[6], m.data[7]))
  }

  function Pack(b: Mailbox, m: TxMessage): Mailbox {
    PutRest(b.(mi := PutId(b.mi, m)), m)
  }

  // GET_RFIFOMDATAx_DBy
  function ByteOf(w: Word, n: nat): Byte
    requires n < 4
  {
    Low8(GetBits(w, ByteField(n)))
  }

  function UnpackData(b: Mailbox): Data {
    [ByteOf(b.data0, 0), ByteOf(b.data0, 1), ByteOf(b.data0, 2), ByteOf(b.data0, 3),
     ByteOf(b.data1, 0), ByteOf(b.data1, 1), ByteOf(b.data1, 2), ByteOf(b.data1, 3)]
  }

  // can_message_receive: only the identifier of the frame's own format is written.
  function Unpack(b: Mailbox, before: RxMessage): RxMessage {
    var extended := Low8(And(Bit(2), b.mi)) != Low8(Zero());
    RxMessage(
      if extended then before.sfid else GetBits(b.mi, SFID),
      if extended then GetBits(b.mi, EFID) else before.efid,
      extended,
      Low8(And(Bit(1), b.mi)) != Low8(Zero()),
      Low8(GetBits(b.mp, DLENC)),
      UnpackData(b),
      Low8(GetBits(b.mp, FI)))
  }

  // What the bus carries over from a transmit mailbox to a receive mailbox: all but the enable bit of the
  // identifier register, the data length, and the data.
  ghost predicate Carried(sent: Mailbox, got: Mailbox) {
    && (forall i :: 1 <= i < 32 ==> got.mi[i] == sent.mi[i])
    && (forall i :: 0 <= i < 4 ==> got.mp[i] == sent.mp[i])
    && got.data0 == sent.data0
    && got.data1 == sent.data1
  }

  // ---- Round trip -----------------------------------------------------------------------------------

  lemma BitTest(w: Word, k: nat)
    requires k < 8
    ensures Low8(And(Bit(k), w)) != Low8(Zero()) <==> w[k]
  {
    var b := Low8(And(Bit(k), w));
    if w[k] {
      assert b[k] && !Low8(Zero())[k];
    } else {
      assert forall i :: 0 <= i < 8 ==> b[i] == Low8(Zero())[i];
    }
  }

  // The identifier register bit by bit, whatever the mailbox held before.
  lemma PutIdBits(mi: Word, m: TxMessage, i: nat)
    requires i < 32
    ensures Or(PutId(mi, m), Bit(0))[i] ==
            if i == 0 then true
            else if i == 1 then m.remote
            else if i == 2 then m.extended
            else if m.extended then m.efid[i - 3]
            else 21 <= i && m.sfid[i - 21]
  {
  }

  lemma PackedByte(d0: Byte, d1: Byte, d2: Byte, d3: Byte, n: nat)
    requires n < 4
    ensures ByteOf(PackBytes(d0, d1, d2, d3), n) == [d0, d1, d2, d3][n]
  {
    forall i | 0 <= i < 8
      ensures ByteOf(PackBytes(d0, d1, d2, d3), n)[i] == [d0, d1, d2, d3][n][i]
    {
      PackedBit(d0, d1, d2, d3, n, i);
    }
  }

  lemma PackedBit(d0: Byte, d1: Byte, d2: Byte, d3: Byte, n: nat, i: nat)
    requires n < 4 && i < 8
    ensures PackBytes(d0, d1, d2, d3)[8 * n + i] == [d0, d1, d2, d3][n][i]
  {
    assert n == 0 || n == 1 || n == 2 || n == 3;
  }

  lemma PackedData(m: TxMessage, b: Mailbox)
    requires b.data0 == PackBytes(m.data[0], m.data[1], m.data[2], m.data[3])
    requires b.data1 == PackBytes(m.data[4], m.data[5], m.data[6], m.data[7])
    ensures UnpackData(b) == m.data
  {
    hide PackBytes, ByteOf;
    var d := m.data;
    forall n | 0 <= n < 4
      ensures ByteOf(b.data0, n) == d[n] && ByteOf(b.data1, n) == d[n + 4]
    {
      PackedByte(d[0], d[1], d[2], d[3], n);
      PackedByte(d[4], d[5], d[6], d[7], n);
    }
  }

  lemma CarriedId(b: Mailbox, m: TxMessage, got: Mailbox)
    requires Carried(Pack(b, m), got)
    ensures got.mi[1] == m.remote && got.mi[2] == m.extended
    ensures m.extended ==> GetBits(got.mi, EFID) == Cut(m.efid, EFID)
    ensures !m.extended ==> GetBits(got.mi, SFID) == Cut(m.sfid, SFID)
  {
    forall i | 1 <= i < 32
      ensures got.mi[i] == Or(PutId(b.mi, m), Bit(0))[i]
    {
    }
    PutIdBits(b.mi, m, 1);
    PutIdBits(b.mi, m, 2);
    if m.extended {
      forall i | 0 <= i < 29
        ensures got.mi[3 + i] == m.efid[i]
      {
        PutIdBits(b.mi, m, 3 + i);
      }
      assert GetBits(got.mi, EFID) == Cut(m.efid, EFID);
    } else {
      forall i | 0 <= i < 11
        ensures got.mi[21 + i] == m.sfid[i]
      {
        PutIdBits(b.mi, m, 21 + i);
      }
      assert GetBits(got.mi, SFID) == Cut(m.sfid, SFID);
    }
  }

  lemma CarriedLength(b: Mailbox, m: TxMessage, got: Mailbox)
    requires Carried(Pack(b, m), got)
    ensures GetBits(got.mp, DLENC) == Cut(Extend(m.dlen), DLENC)
  {
    assert forall i :: 0 <= i < 4 ==> got.mp[i] == m.dlen[i];
  }

  // What a receiver gets of a message, bit by bit: 11 or 29 identifier bits, 4 length bits, eight bytes, and the
  // filter index from bits 8 to 15 of its own property register.
  ghost predicate ReceivedAs(r: RxMessage, m: TxMessage, mp: Word, before: RxMessage) {
    && r.extended == m.extended && r.remote == m.remote
    && (if m.extended then r.sfid == before.sfid && forall i :: 0 <= i < 32 ==> r.efid[i] == (i < 29 && m.efid[i])
        else r.efid == before.efid && forall i :: 0 <= i < 32 ==> r.sfid[i] == (i < 11 && m.sfid[i]))
    && (forall i :: 0 <= i < 8 ==> r.dlen[i] == (i < 4 && m.dlen[i]))
    && (forall i :: 0 <= i < 8 ==> r.fi[i] == mp[8 + i])
    && r.data == m.data
  }

  /** Format, type, identifier and data bytes survive packing into any mailbox, the bus and unpacking; the
      identifier is cut to 11 or 29 bits and the length code to 4 bits. */
  lemma RoundTrip(b: Mailbox, m: TxMessage, got: Mailbox, before: RxMessage)
    requires Carried(Pack(b, m), got)
    ensures ReceivedAs(Unpack(got, before), m, got.mp, before)
  {
    CarriedId(b, m, got);
    CarriedLength(b, m, got);
    PackedData(m, got);
    BitTest(got.mi, 1);
    BitTest(got.mi, 2);
    hide UnpackData, Carried, Pack, Low8, And;
    var r := Unpack(got, before);
    assert r.dlen == Low8(GetBits(got.mp, DLENC)) && r.fi == Low8(GetBits(got.mp, FI));
  }

  lemma SmallMod(x: nat, m: nat)
    requires 0 < m
    ensures x % m == x <==> x < m
  {
  }

  // Identifiers within their documented range come back as they are.
  lemma InRange(id: Word, f: Field)
    requires f.Valid()
    ensures Cut(id, f) == id <==> Value(id) < Pow2(f.Width())
  {
    CutValue(id, f);
    SmallMod(Value(id), Pow2(f.Width()));
    if Value(Cut(id, f)) == Value(id) {
      ValueInjective(Cut(id, f), id);
    }
  }

  // ---- The registers of a sent message --------------------------------------------------------------

  // Transmission requested, type and format bits, and the identifier from bit 21 or bit 3 on.
  ghost predicate IdWritten(w: Word, m: TxMessage) {
    && w[0] && w[1] == m.remote && w[2] == m.extended
    && forall i :: 3 <= i < 32 ==> w[i] == if m.extended then m.efid[i - 3] else 21 <= i && m.sfid[i - 21]
  }

  // The four length bits replaced; a length above 15 would spill into bits 4 to 7, nothing touches the others.
  ghost predicate PropertyWritten(w: Word, before: Word, m: TxMessage) {
    && (forall i :: 0 <= i < 4 ==> w[i] == m.dlen[i])
    && (forall i :: 4 <= i < 8 ==> w[i] == (before[i] || m.dlen[i]))
    && (forall i :: 8 <= i < 32 ==> w[i] == before[i])
  }

  // Four bytes from data[k] on, the first in the lowest bits.
  ghost predicate DataWritten(w: Word, data: Data, k: nat)
    requires k <= 4
  {
    forall i :: 0 <= i < 32 ==> w[i] == data[k + i / 8][i % 8]
  }

  ghost predicate Written(b: Mailbox, before: Mailbox, m: TxMessage) {
    && IdWritten(b.mi, m)
    && PropertyWritten(b.mp, before.mp, m)
    && DataWritten(b.data0, m.data, 0)
    && DataWritten(b.data1, m.data, 4)
  }

  lemma BytesWritten(data: Data, k: nat)
    requires k <= 4
    ensures DataWritten(PackBytes(data[k], data[k + 1], data[k + 2], data[k + 3]), data, k)
  {
    var d0, d1, d2, d3 := data[k], data[k + 1], data[k + 2], data[k + 3];
    forall i | 0 <= i < 32
      ensures PackBytes(d0, d1, d2, d3)[i] == data[k + i / 8][i % 8]
    {
      PackedBit(d0, d1, d2, d3, i / 8, i % 8);
      hide PackBytes;
      assert 8 * (i / 8) + i % 8 == i;
      assert [d0, d1, d2, d3][i / 8] == data[k + i / 8];
    }
  }

  lemma IdIsWritten(mi: Word, m: TxMessage)
    ensures IdWritten(Or(PutId(mi, m), Bit(0)), m)
  {
    forall i | 0 <= i < 32
      ensures i >= 3 ==> Or(PutId(mi, m), Bit(0))[i] == if m.extended then m.efid[i - 3] else 21 <= i && m.sfid[i - 21]
    {
      PutIdBits(mi, m, i);
    }
    PutIdBits(mi, m, 0);
    PutIdBits(mi, m, 1);
    PutIdBits(mi, m, 2);
  }

  lemma PropertyIsWritten(mp: Word, m: TxMessage)
    ensures PropertyWritten(Or(And(mp, Not(Mask(DLENC))), Extend(m.dlen)), mp, m)
  {
  }

  lemma PackWritten(b: Mailbox, m: TxMessage)
    ensures Written(Pack(b, m), b, m)
  {
    IdIsWritten(b.mi, m);
    PropertyIsWritten(b.mp, m);
    BytesWritten(m.data, 0);
    BytesWritten(m.data, 4);
    hide IdWritten, PropertyWritten, DataWritten, PutId, PackBytes, Or, And, Not, Extend;
  }

  // ---- The code -------------------------------------------------------------------------------------

  const NOMAILBOX := 3

  // The mailbox chosen: the first empty one.
  ghost predicate FirstEmpty(tstat: Word, k: nat) {
    && k <= 3
    && (forall j :: 26 <= j < 26 + k ==> !tstat[j])
    && (k < 3 ==> tstat[26 + k])
  }

  // BIT(k) == (w & BIT(k))
  predicate Test(w: Word, k: nat)
    requires k < 32
  {
    Bit(k) == And(w, Bit(k))
  }

  lemma TestIsBit(w: Word, k: nat)
    requires k < 32
    ensures Test(w, k) <==> w[k]
  {
    if w[k] {
      assert forall i :: 0 <= i < 32 ==> Bit(k)[i] == And(w, Bit(k))[i];
    } else {
      assert Bit(k)[k] && !And(w, Bit(k))[k];
    }
  }

  class Peripheral {
    const mailboxes: array<Mailbox>
    var tstat: Word                 // bits 26 to 28 say which mailboxes are empty

    ghost predicate Valid()
      reads this
    {
      mailboxes.Length == 3
    }

    // The identifier of the message into an empty mailbox
    method PutIdentifier(k: nat, m: TxMessage)
      requires Valid() && k < 3
      modifies mailboxes
      ensures mailboxes[..] == old(mailboxes[..])[k := old(mailboxes[k]).(mi := PutId(old(mailboxes[k]).mi, m))]
    {
      var mi := And(mailboxes[k].mi, Bit(0));
      if !m.extended {
        mi := Or(mi, Or(Place(SFID, m.sfid), Flag(m.remote, 1)));
      } else {
        mi := Or(mi, Or(Or(Place(EFID, m.efid), Bit(2)), Flag(m.remote, 1)));
      }
      mailboxes[k] := mailboxes[k].(mi := mi);
    }

    // Data length, data, and the enable bit last
    method PutData(k: nat, m: TxMessage)
      requires Valid() && k < 3
      modifies mailboxes
      ensures mailboxes[..] == old(mailboxes[..])[k := PutRest(old(mailboxes[k]), m)]
    {
      var mp := And(mailboxes[k].mp, Not(Mask(DLENC)));
      mp := Or(mp, Extend(m.dlen));
      mailboxes[k] := mailboxes[k].(mp := mp);
      mailboxes[k] := mailboxes[k].(data0 := PackBytes(m.data[0], m.data[1], m.data[2], m.data[3]));
      mailboxes[k] := mailboxes[k].(data1 := PackBytes(m.data[4], m.data[5], m.data[6], m.data[7]));
      mailboxes[k] := mailboxes[k].(mi := Or(mailboxes[k].mi, Bit(0)));
    }

    /** can_message_transmit: the message goes to the first empty mailbox, the others keep their contents. */
    method MessageTransmit(m: TxMessage) returns (number: nat)
      requires Valid()
      modifies mailboxes
      ensures FirstEmpty(tstat, number)
      ensures mailboxes[..] == if number == NOMAILBOX then old(mailboxes[..])
                               else old(mailboxes[..])[number := Pack(old(mailboxes[number]), m)]
      ensures number < 3 ==> Written(mailboxes[number], old(mailboxes[number]), m)
    {
      TestIsBit(tstat, 26);
      TestIsBit(tstat, 27);
      TestIsBit(tstat, 28);
      number := if Test(tstat, 26) then 0 else if Test(tstat, 27) then 1 else if Test(tstat, 28) then 2 else NOMAILBOX;
      hide Test, Pack, Written;
      if number == NOMAILBOX {
        return;
      }
      PackWritten(mailboxes[number], m);
      Send(number, m);
    }

    // Identifier first, then length, data and the enable bit
    method Send(k: nat, m: TxMessage)
      requires Valid() && k < 3
      modifies mailboxes
      ensures mailboxes[..] == old(mailboxes[..])[k := Pack(old(mailboxes[k]), m)]
    {
      hide PutId, PutRest;
      PutIdentifier(k, m);
      PutData(k, m);
    }
  }
}
