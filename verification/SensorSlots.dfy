/** What one discovery leaves in each single slot of the sensor table. */
module SensorSlots {
  import opened RomCodes
  import opened SensorTable
  import RomSearch

  /** The codes among `roms` that no slot held before, in the order they were found. */
  ghost function Newcomers(t: Table, roms: seq<Rom>): (r: seq<Rom>)
    ensures forall k :: 0 <= k < |r| ==> r[k] in roms && r[k] != ZeroRom() && r[k] !in Known(t)
  {
    if roms == [] then []
    else
      var rom := roms[|roms| - 1];
      Newcomers(t, roms[..|roms| - 1]) + if rom != ZeroRom() && rom !in Known(t) then [rom] else []
  }

  /** How many free slots come before slot `i`. */
  function FreeBefore(t: Table, i: nat): nat
    requires i <= |t|
  {
    FreeSlots(t[..i])
  }

  lemma {:induction false} FreeBeforeStep(t: Table, i: nat)
    requires i < |t|
    ensures FreeBefore(t, i + 1) == FreeBefore(t, i) + if Free(t[i]) then 1 else 0
    decreases i
  {
    if i == 0 {
      assert t[..1][1..] == [];
    } else {
      FreeBeforeStep(t[1..], i - 1);
      assert t[..i][1..] == t[1..][..i - 1] && t[..i + 1][1..] == t[1..][..i];
    }
  }

  lemma {:induction false} FreeBeforeGrows(t: Table, i: nat, j: nat)
    requires i < j <= |t| && Free(t[i])
    ensures FreeBefore(t, i) < FreeBefore(t, j)
    decreases j
  {
    hide FreeSlots;
    FreeBeforeStep(t, j - 1);
    if i < j - 1 { FreeBeforeGrows(t, i, j - 1); }
  }

  /** Every rank below that of a free slot is taken by a free slot before it. */
  lemma {:induction false} RankTaken(t: Table, i: nat, n: nat) returns (j: nat)
    requires i <= |t| && n < FreeBefore(t, i)
    ensures j < i && Free(t[j]) && FreeBefore(t, j) == n
  {
    if i == 0 {
      assert false;
    }
    FreeBeforeStep(t, i - 1);
    if FreeBefore(t, i - 1) == n && Free(t[i - 1]) { j := i - 1; } else { j := RankTaken(t, i - 1, n); }
  }

  /** Slot `s` of the table before, after the codes `roms` have been noted; `u` is what it became. A
      zero code can only touch the mark of a free slot. */
  ghost predicate SlotNoted(t: Table, roms: seq<Rom>, i: nat, u: Sensor)
    requires i < |t|
  {
    var came, k := Newcomers(t, roms), FreeBefore(t, i);
    if !Free(t[i]) then u == t[i].(present := t[i].rom in roms)
    else if k < |came| then u == t[i].(rom := came[k], present := true, readDelay := 1)
    else u == t[i].(present := u.present) && (u.present ==> ZeroRom() in roms)
  }

  ghost predicate AllNoted(t: Table, roms: seq<Rom>, u: Table) {
    |u| == |t| && forall i :: 0 <= i < |t| ==> SlotNoted(t, roms, i, u[i])
  }

  lemma NewcomersStep(t: Table, roms: seq<Rom>, rom: Rom)
    ensures Newcomers(t, roms + [rom]) ==
            Newcomers(t, roms) + if rom != ZeroRom() && rom !in Known(t) then [rom] else []
  {
    assert (roms + [rom])[..|roms|] == roms;
  }

  /** A code that some slot holds already marks that slot. */
  lemma NoteKnown(t: Table, roms: seq<Rom>, u: Table, rom: Rom)
    requires NoDuplicates(t) && AllNoted(t, roms, u) && rom in Known(t)
    ensures AllNoted(t, roms + [rom], Note(u, rom))
  {
    var j :| 0 <= j < |t| && !Free(t[j]) && t[j].rom == rom;
    assert SlotNoted(t, roms, j, u[j]);
    var k := FirstSlot(u, rom);
    assert k == j by {
      assert SlotNoted(t, roms, k, u[k]);
    }
    forall i | 0 <= i < |t| ensures SlotNoted(t, roms + [rom], i, Note(u, rom)[i]) {
      NewcomersStep(t, roms, rom);
      if i != j { assert t[i].rom != rom; }
      assert SlotNoted(t, roms, i, u[i]);
    }
  }

  /** A zero code marks a free slot, or does nothing. */
  lemma NoteZero(t: Table, roms: seq<Rom>, u: Table)
    requires AllNoted(t, roms, u)
    ensures AllNoted(t, roms + [ZeroRom()], Note(u, ZeroRom()))
  {
    forall i | 0 <= i < |t| ensures SlotNoted(t, roms + [ZeroRom()], i, Note(u, ZeroRom())[i]) {
      NewcomersStep(t, roms, ZeroRom());
      assert SlotNoted(t, roms, i, u[i]);
    }
  }

  /** A newcomer takes the first slot that is still free. */
  lemma NoteNewcomer(t: Table, roms: seq<Rom>, u: Table, rom: Rom)
    requires AllNoted(t, roms, u) && rom !in roms && rom != ZeroRom() && rom !in Known(t)
    ensures AllNoted(t, roms + [rom], Note(u, rom))
  {
    var n, f := |Newcomers(t, roms)|, FirstSlot(u, ZeroRom());
    NewcomersStep(t, roms, rom);
    forall i | 0 <= i < |t| ensures u[i].rom != rom && (Free(u[i]) <==> Free(t[i]) && FreeBefore(t, i) >= n) {
      assert SlotNoted(t, roms, i, u[i]);
      assert !Free(t[i]) ==> t[i].rom in Known(t);
    }
    assert FirstSlot(u, rom) == |u|;
    if f < |u| {
      assert Free(u[f]);
      if FreeBefore(t, f) > n {
        var _ := RankTaken(t, f, n);
      }
    }
    forall i | 0 <= i < |t| ensures SlotNoted(t, roms + [rom], i, Note(u, rom)[i]) {
      assert SlotNoted(t, roms, i, u[i]);
      if Free(t[i]) && FreeBefore(t, i) == n && i != f {
        assert Free(u[i]) && f < i;
        FreeBeforeGrows(t, f, i);
      }
    }
  }

  lemma NoteOne(t: Table, roms: seq<Rom>, u: Table, rom: Rom)
    requires NoDuplicates(t) && AllNoted(t, roms, u) && rom !in roms
    ensures AllNoted(t, roms + [rom], Note(u, rom))
  {
    hide AllNoted, Note, Known;
    if rom == ZeroRom() {
      NoteZero(t, roms, u);
    } else if rom in Known(t) {
      NoteKnown(t, roms, u, rom);
    } else {
      NoteNewcomer(t, roms, u, rom);
    }
  }

  ghost predicate Distinct(roms: seq<Rom>) {
    forall i, j :: 0 <= i < j < |roms| ==> roms[i] != roms[j]
  }

  lemma {:induction false} NoteEach(t: Table, done: seq<Rom>, u: Table, roms: seq<Rom>)
    requires NoDuplicates(t) && AllNoted(t, done, u) && Distinct(done + roms)
    ensures AllNoted(t, done + roms, NoteAll(u, roms))
    decreases |roms|
  {
    hide AllNoted, Note, NoDuplicates;
    if roms == [] {
      assert done + roms == done;
    } else {
      var all := done + roms;
      assert all == done + [roms[0]] + roms[1..];
      assert all[|done|] == roms[0] && forall i :: 0 <= i < |done| ==> all[i] == done[i];
      NoteOne(t, done, u, roms[0]);
      NoteEach(t, done + [roms[0]], Note(u, roms[0]), roms[1..]);
    }
  }

  /** Different codes are stored as different bytes. */
  lemma RunDistinct(devices: set<Code>)
    ensures Distinct(Packed(RomSearch.Run(devices)))
  {
    var run := RomSearch.Run(devices);
    RomSearch.RunEnumerates(devices);
    forall i, j | 0 <= i < j < |run| ensures Pack(run[i]) != Pack(run[j]) {
      LessIrreflexive(run[i]);
      PackBits(run[i], Pack(run[j]));
      PackBits(run[j], Pack(run[j]));
    }
  }

  /** The newcomers of a discovery, in search order. */
  ghost function Arrived(t: Table, devices: set<Code>): seq<Rom> {
    Newcomers(t, Packed(RomSearch.Run(devices)))
  }

  lemma {:induction false} NewcomersAre(t: Table, roms: seq<Rom>)
    ensures forall r :: r in Newcomers(t, roms) <==> r in roms && r != ZeroRom() && r !in Known(t)
  {
    if roms != [] {
      hide Known;
      NewcomersAre(t, roms[..|roms| - 1]);
      assert roms == roms[..|roms| - 1] + [roms[|roms| - 1]];
    }
  }

  ghost predicate InOrder(roms: seq<Rom>) {
    forall i, j :: 0 <= i < j < |roms| ==> Less(Bits(roms[i]), Bits(roms[j]))
  }

  lemma InOrderStep(roms: seq<Rom>, rom: Rom)
    requires InOrder(roms) && forall k :: 0 <= k < |roms| ==> Less(Bits(roms[k]), Bits(rom))
    ensures InOrder(roms + [rom])
  {
    hide Less, Bits;
  }

  lemma InOrderInit(roms: seq<Rom>)
    requires InOrder(roms) && roms != []
    ensures var init := roms[..|roms| - 1];
            InOrder(init) && forall r :: r in init ==> Less(Bits(r), Bits(roms[|roms| - 1]))
  {
    hide Less, Bits;
  }

  lemma {:induction false} NewcomersInOrder(t: Table, roms: seq<Rom>)
    requires InOrder(roms)
    ensures InOrder(Newcomers(t, roms))
  {
    if roms != [] {
      hide Known, Less, Bits, InOrder;
      InOrderInit(roms);
      NewcomersInOrder(t, roms[..|roms| - 1]);
      InOrderStep(Newcomers(t, roms[..|roms| - 1]), roms[|roms| - 1]);
    }
  }

  /** The newcomers are the devices on the bus that no slot held before, the lowest code first. */
  lemma ArrivedInOrder(t: Table, devices: set<Code>)
    ensures forall r :: r in Arrived(t, devices) <==> r in OnBus(devices) && r != ZeroRom() && r !in Known(t)
    ensures InOrder(Arrived(t, devices))
  {
    hide Known, Newcomers, Less;
    var run := RomSearch.Run(devices);
    RomSearch.RunEnumerates(devices);
    PackedElements(devices, run);
    forall i | 0 <= i < |run| ensures Bits(Packed(run)[i]) == run[i] {
      PackBits(run[i], Pack(run[i]));
    }
    NewcomersAre(t, Packed(run));
    NewcomersInOrder(t, Packed(run));
    assert forall r :: r in Packed(run) <==> r in Elements(Packed(run));
  }

  lemma DiscoveryNotesSlots(t: Table, devices: set<Code>)
    requires NoDuplicates(t)
    ensures AllNoted(t, Packed(RomSearch.Run(devices)), NoteAll(ClearPresent(t), Packed(RomSearch.Run(devices))))
  {
    hide NoteAll, Packed, Note;
    var roms := Packed(RomSearch.Run(devices));
    RunDistinct(devices);
    assert [] + roms == roms;
    assert AllNoted(t, [], ClearPresent(t));
    NoteEach(t, [], ClearPresent(t), roms);
  }

  /** What discovery makes of slot `i`. A device that stayed is marked present, and a departed one
      loses its code and its mark, nothing else. The free slots take the newcomers, lowest code first,
      from the first slot on, each with a read delay of 1 and otherwise as it was. A free slot left
      over keeps everything, its mark being cleared unless a zero code is on the bus. */
  lemma DiscoverySlots(t: Table, devices: set<Code>, i: nat)
    requires NoDuplicates(t) && i < |t|
    ensures |Discovered(t, devices)| == |t|
    ensures var was, now := t[i], Discovered(t, devices)[i];
            var came, k := Arrived(t, devices), FreeBefore(t, i);
            && (!Free(was) && was.rom in OnBus(devices) ==> now == was.(present := true))
            && (!Free(was) && was.rom !in OnBus(devices) ==> now == was.(rom := ZeroRom(), present := false))
            && (Free(was) && k < |came| ==> now == was.(rom := came[k], present := true, readDelay := 1))
            && (Free(was) && k >= |came| ==> now == was.(present := now.present))
            && (Free(was) && k >= |came| && ZeroRom() !in OnBus(devices) ==> !now.present)
  {
    hide NoteAll, Packed, Note, Known, Newcomers;
    var run := RomSearch.Run(devices);
    DiscoveryNotesSlots(t, devices);
    assert SlotNoted(t, Packed(run), i, NoteAll(ClearPresent(t), Packed(run))[i]);
    RomSearch.RunEnumerates(devices);
    PackedElements(devices, run);
    assert forall r :: r in Packed(run) <==> r in Elements(Packed(run));
  }
}
