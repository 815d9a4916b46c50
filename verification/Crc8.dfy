/** The 8-bit CRC of ROM codes and file nodes, in the two forms the sources use. */
module Crc8 {
  function Shift(c: bv8): bv8 {
    if c & 1 == 1 then (c >> 1) ^ 0x8C else c >> 1
  }

  function ShiftBy(c: bv8, n: nat): bv8
    decreases n
  {
    if n == 0 then c else ShiftBy(Shift(c), n - 1)
  }

  /** `_crc_ibutton_update`: mix the byte in, then shift eight times. */
  function Update(crc: bv8, data: bv8): bv8 {
    ShiftBy(crc ^ data, 8)
  }

  /** One turn of the loop of `crc_update`, which compares bit by bit instead. */
  function SerialStep(crc: bv8, data: bv8): bv8 {
    if (crc ^ data) & 1 == 1 then (crc >> 1) ^ 0x8C else crc >> 1
  }

  function Serial(crc: bv8, data: bv8, n: nat): bv8
    decreases n
  {
    if n == 0 then crc else Serial(SerialStep(crc, data), data >> 1, n - 1)
  }

  function Checksum(crc: bv8, data: seq<bv8>): bv8
    decreases |data|
  {
    if data == [] then crc else Checksum(Update(crc, data[0]), data[1..])
  }

  /** The checksum folded over any byte string with the serial form. */
  function SerialChecksum(crc: bv8, data: seq<bv8>): bv8
    decreases |data|
  {
    if data == [] then crc else SerialChecksum(Serial(crc, data[0], 8), data[1..])
  }

  function Mix(a: bv8, b: bv8): bv8 { a ^ b }

  lemma StepMatches(crc: bv8, data: bv8)
    ensures Mix(SerialStep(crc, data), data >> 1) == Shift(Mix(crc, data))
  {
    if (crc ^ data) & 1 == 1 {
      assert ((crc >> 1) ^ 0x8C) ^ (data >> 1) == ((crc ^ data) >> 1) ^ 0x8C;
    } else {
      assert (crc >> 1) ^ (data >> 1) == (crc ^ data) >> 1;
    }
  }

  function Drop(data: bv8, n: nat): bv8
    decreases n
  {
    if n == 0 then data else Drop(data >> 1, n - 1)
  }

  /** The serial form carries the mixed state minus the data bits not yet consumed. */
  lemma {:induction false} SerialMatches(crc: bv8, data: bv8, n: nat)
    ensures Mix(Serial(crc, data, n), Drop(data, n)) == ShiftBy(Mix(crc, data), n)
    decreases n
  {
    if n > 0 {
      hide Shift, SerialStep, Mix;
      StepMatches(crc, data);
      SerialMatches(SerialStep(crc, data), data >> 1, n - 1);
    }
  }

  lemma {:induction false} DropAdd(data: bv8, m: nat, n: nat)
    ensures Drop(data, m + n) == Drop(Drop(data, m), n)
    decreases m
  {
    if m > 0 { DropAdd(data >> 1, m - 1, n); }
  }

  lemma AllDropped(data: bv8)
    ensures Drop(data, 8) == 0
  {
    var a := Drop(data, 2);
    assert Drop(data, 2) == data >> 2;
    DropAdd(data, 2, 6);
    assert Drop(a, 2) == a >> 2;
    DropAdd(a, 2, 4);
    var b := Drop(a, 2);
    assert Drop(b, 2) == b >> 2;
    DropAdd(b, 2, 2);
    var c := Drop(b, 2);
    assert Drop(c, 2) == c >> 2;
    assert (((data >> 2) >> 2) >> 2) >> 2 == 0;
  }

  /** Both forms agree on every byte. */
  lemma SerialIsUpdate(crc: bv8, data: bv8)
    ensures Serial(crc, data, 8) == Update(crc, data)
  {
    hide Serial, ShiftBy, Drop;
    SerialMatches(crc, data, 8);
    AllDropped(data);
    assert Serial(crc, data, 8) ^ 0 == Serial(crc, data, 8);
  }

  /** Both forms agree on every byte string, so nodes written by the host tool check out on the device. */
  lemma {:induction false} SerialChecksumIsChecksum(crc: bv8, data: seq<bv8>)
    ensures SerialChecksum(crc, data) == Checksum(crc, data)
    decreases |data|
  {
    hide Serial, Update;
    if data != [] {
      SerialIsUpdate(crc, data[0]);
      SerialChecksumIsChecksum(Update(crc, data[0]), data[1..]);
    }
  }

  lemma {:induction false} ChecksumAppend(crc: bv8, a: seq<bv8>, b: bv8)
    ensures Checksum(crc, a + [b]) == Update(Checksum(crc, a), b)
    decreases |a|
  {
    hide Update;
    if a == [] {
      assert (a + [b])[1..] == [];
    } else {
      assert (a + [b])[1..] == a[1..] + [b];
      ChecksumAppend(Update(crc, a[0]), a[1..], b);
    }
  }

  lemma {:induction false} SerialChecksumAppend(crc: bv8, a: seq<bv8>, b: bv8)
    ensures SerialChecksum(crc, a + [b]) == Serial(SerialChecksum(crc, a), b, 8)
    decreases |a|
  {
    hide Serial;
    if a == [] {
      assert (a + [b])[1..] == [];
    } else {
      assert (a + [b])[1..] == a[1..] + [b];
      SerialChecksumAppend(Serial(crc, a[0], 8), a[1..], b);
    }
  }

  // ----- the loops

  /** `_crc_ibutton_update` */
  method CrcIbuttonUpdate(crc0: bv8, data: bv8) returns (crc: bv8)
    ensures crc == Update(crc0, data)
  {
    crc := crc0 ^ data;
    for i := 0 to 8
      invariant ShiftBy(crc, 8 - i) == ShiftBy(crc0 ^ data, 8)
    {
      if crc & 1 == 1 {
        crc := (crc >> 1) ^ 0x8C;
      } else {
        crc := crc >> 1;
      }
    }
  }

  /** `crc_update` of vfs-concat */
  method CrcUpdate(crc0: bv8, data0: bv8) returns (crc: bv8)
    ensures crc == Serial(crc0, data0, 8)
  {
    crc := crc0;
    var data := data0;
    for i := 0 to 8
      invariant Serial(crc, data, 8 - i) == Serial(crc0, data0, 8)
    {
      if (crc ^ data) & 1 == 1 {
        crc := (crc >> 1) ^ 0x8C;
      } else {
        crc := crc >> 1;
      }
      data := data >> 1;
    }
  }

  /** `crc_checksum` */
  method CrcChecksum(data: array<bv8>, length: nat) returns (crc: bv8)
    requires length <= data.Length
    ensures crc == Checksum(0, data[..length])
  {
    hide Update;
    crc := 0;
    for i := 0 to length
      invariant crc == Checksum(0, data[..i])
    {
      assert data[..i + 1] == data[..i] + [data[i]];
      ChecksumAppend(0, data[..i], data[i]);
      crc := CrcIbuttonUpdate(crc, data[i]);
    }
  }

  /** `crc_calc` of vfs-concat */
  method CrcCalc(data: array<bv8>, len: nat) returns (crc: bv8)
    requires len <= data.Length
    ensures crc == SerialChecksum(0, data[..len])
  {
    hide Serial;
    crc := 0;
    for i := 0 to len
      invariant crc == SerialChecksum(0, data[..i])
    {
      assert data[..i + 1] == data[..i] + [data[i]];
      SerialChecksumAppend(0, data[..i], data[i]);
      crc := CrcUpdate(crc, data[i]);
    }
  }

  // ----- the polynomial

  /** The digits 1 to 9 as characters, on which CRCs are compared. */
  const DIGITS: seq<bv8> := [0x31, 0x32, 0x33, 0x34, 0x35, 0x36, 0x37, 0x38, 0x39]

  lemma EightShifts(c: bv8)
    ensures ShiftBy(c, 8) == Shift(Shift(Shift(Shift(Shift(Shift(Shift(Shift(c))))))))
  {
    hide Shift;
    var c2, c4, c6 := Shift(Shift(c)), Shift(Shift(Shift(Shift(c)))), Shift(Shift(Shift(Shift(Shift(Shift(c))))));
    assert ShiftBy(c, 8) == ShiftBy(Shift(c), 7) == ShiftBy(c2, 6);
    assert ShiftBy(c2, 6) == ShiftBy(Shift(c2), 5) == ShiftBy(c4, 4);
    assert ShiftBy(c4, 4) == ShiftBy(Shift(c4), 3) == ShiftBy(c6, 2);
    assert ShiftBy(c6, 2) == ShiftBy(Shift(c6), 1) == ShiftBy(Shift(Shift(c6)), 0);
  }

  lemma DigitUpdates()
    ensures Update(0x00, 0x31) == 0xE0
    ensures Update(0xE0, 0x32) == 0xEB
    ensures Update(0xEB, 0x33) == 0x95
    ensures Update(0x95, 0x34) == 0xF1
    ensures Update(0xF1, 0x35) == 0xAB
    ensures Update(0xAB, 0x36) == 0xEC
    ensures Update(0xEC, 0x37) == 0x77
    ensures Update(0x77, 0x38) == 0x07
    ensures Update(0x07, 0x39) == 0xA1
  {
    hide ShiftBy;
    EightShifts(0x00 ^ 0x31);
    EightShifts(0xE0 ^ 0x32);
    EightShifts(0xEB ^ 0x33);
    EightShifts(0x95 ^ 0x34);
    EightShifts(0xF1 ^ 0x35);
    EightShifts(0xAB ^ 0x36);
    EightShifts(0xEC ^ 0x37);
    EightShifts(0x77 ^ 0x38);
    EightShifts(0x07 ^ 0x39);
  }

  lemma TakeFirst(s: bv8, b: bv8, rest: seq<bv8>)
    ensures Checksum(s, [b] + rest) == Checksum(Update(s, b), rest)
  {
    assert ([b] + rest)[1..] == rest;
  }

  lemma NoBytes(crc: bv8)
    ensures Checksum(crc, []) == crc
  {
  }

  /** The check value of the CRC-8 with polynomial x^8 + x^5 + x^4 + 1 and low bits first. */
  lemma CheckValue()
    ensures Checksum(0, DIGITS) == 0xA1
  {
    hide Update, Checksum;
    DigitUpdates();
    var d8: seq<bv8> := [0x39];
    var d7 := [0x38] + d8;
    var d6 := [0x37] + d7;
    var d5 := [0x36] + d6;
    var d4 := [0x35] + d5;
    var d3 := [0x34] + d4;
    var d2 := [0x33] + d3;
    var d1 := [0x32] + d2;
    assert DIGITS == [0x31] + d1;
    assert d8 == [0x39] + [];
    TakeFirst(0x00, 0x31, d1);
    TakeFirst(0xE0, 0x32, d2);
    TakeFirst(0xEB, 0x33, d3);
    TakeFirst(0x95, 0x34, d4);
    TakeFirst(0xF1, 0x35, d5);
    TakeFirst(0xAB, 0x36, d6);
    TakeFirst(0xEC, 0x37, d7);
    TakeFirst(0x77, 0x38, d8);
    TakeFirst(0x07, 0x39, []);
    NoBytes(0xA1);
  }
}
