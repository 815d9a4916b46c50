/** The polled sensor table and what one discovery pass does to it. */
module SensorTable {
  import opened RomCodes
  import RomSearch

  datatype Sensor = Sensor(rom: Rom, temp: int, readDelay: int, convertDelay: int, converted: bool, present: bool)

  type Table = seq<Sensor>

  /** A slot is free when its ROM code is zero. */
  predicate Free(s: Sensor) {
    s.rom == ZeroRom()
  }

  function ClearPresent(t: Table): Table {
    seq(|t|, i requires 0 <= i < |t| => t[i].(present := false))
  }

  /** The first slot holding `rom`, or |t|. */
  function FirstSlot(t: Table, rom: Rom): (k: nat)
    ensures k <= |t|
    ensures k < |t| ==> t[k].rom == rom
    ensures forall i :: 0 <= i < k ==> t[i].rom != rom
  {
    if t == [] || t[0].rom == rom then 0 else 1 + FirstSlot(t[1..], rom)
  }

  /** One discovered device: mark its slot, else take the first free slot, else drop it. */
  function Note(t: Table, rom: Rom): Table {
    var k := FirstSlot(t, rom);
    var f := FirstSlot(t, ZeroRom());
    if k < |t| then t[k := t[k].(present := true)]
    else if f < |t| then t[f := t[f].(rom := rom, present := true, readDelay := 1)]
    else t
  }

  function NoteAll(t: Table, roms: seq<Rom>): Table
    decreases |roms|
  {
    if roms == [] then t else NoteAll(Note(t, roms[0]), roms[1..])
  }

  /** Slots whose device did not answer become free. */
  function Purge(t: Table): Table {
    seq(|t|, i requires 0 <= i < |t| => if t[i].present then t[i] else t[i].(rom := ZeroRom()))
  }

  function Packed(codes: seq<Code>): seq<Rom> {
    seq(|codes|, i requires 0 <= i < |codes| => Pack(codes[i]))
  }

  ghost function Discovered(t: Table, devices: set<Code>): Table {
    Purge(NoteAll(ClearPresent(t), Packed(RomSearch.Run(devices))))
  }

  // ----- what the table means

  /** The codes on the bus, as the firmware stores them. */
  ghost function OnBus(devices: set<Code>): set<Rom> {
    set d | d in devices :: Pack(d)
  }

  /** The codes on record; the zero code marks a free slot and is never on record. */
  ghost function Known(t: Table): set<Rom> {
    set i | 0 <= i < |t| && !Free(t[i]) :: t[i].rom
  }

  ghost predicate NoDuplicates(t: Table) {
    forall i, j :: 0 <= i < j < |t| && !Free(t[i]) ==> t[i].rom != t[j].rom
  }

  function FreeSlots(t: Table): nat {
    if t == [] then 0 else (if Free(t[0]) then 1 else 0) + FreeSlots(t[1..])
  }

  lemma {:induction false} FreeSlotsTake(t: Table, k: nat, s: Sensor)
    requires k < |t| && Free(t[k])
    ensures FreeSlots(t[k := s]) == FreeSlots(t) - (if Free(s) then 0 else 1)
  {
    if k > 0 {
      assert t[k := s][1..] == t[1..][k - 1 := s];
      FreeSlotsTake(t[1..], k - 1, s);
    }
  }

  lemma {:induction false} FreeSlotsSame(t: Table, u: Table)
    requires |t| == |u| && forall i :: 0 <= i < |t| ==> t[i].rom == u[i].rom
    ensures FreeSlots(t) == FreeSlots(u)
  {
    if t != [] {
      FreeSlotsSame(t[1..], u[1..]);
    }
  }

  lemma {:induction false} NoFreeSlot(t: Table)
    ensures FreeSlots(t) == 0 <==> forall i :: 0 <= i < |t| ==> !Free(t[i])
  {
    if t != [] {
      NoFreeSlot(t[1..]);
      forall i | 1 <= i < |t| ensures t[i] == t[1..][i - 1] { }
    }
  }

  /** Old occupants keep their slot and are marked exactly when seen. */
  ghost predicate OldKept(t: Table, seen: set<Rom>, u: Table)
    requires |u| == |t|
  {
    forall i :: 0 <= i < |t| && !Free(t[i]) ==> u[i].rom == t[i].rom && (u[i].present <==> t[i].rom in seen)
  }

  /** The other occupied slots hold newcomers that were seen. */
  ghost predicate NewMarked(t: Table, seen: set<Rom>, u: Table)
    requires |u| == |t|
  {
    forall i :: 0 <= i < |t| && Free(t[i]) && !Free(u[i]) ==>
      u[i].present && u[i].rom in seen && u[i].rom !in Known(t)
  }

  /** A seen code is on record unless the table is full, and each newcomer on record took one free slot. */
  ghost predicate Accounted(t: Table, seen: set<Rom>, u: Table) {
    && (forall r :: r in seen && r != ZeroRom() ==> r in Known(u) || FreeSlots(u) == 0)
    && |Known(u) - Known(t)| == FreeSlots(t) - FreeSlots(u)
  }

  /** Table `u` after the codes `seen` have been noted, starting from the cleared table `t`. */
  ghost predicate Noted(t: Table, seen: set<Rom>, u: Table) {
    && |u| == |t| && NoDuplicates(u)
    && OldKept(t, seen, u) && NewMarked(t, seen, u) && Accounted(t, seen, u)
  }

  lemma KnownSame(t: Table, u: Table)
    requires |t| == |u| && forall i :: 0 <= i < |t| ==> t[i].rom == u[i].rom
    ensures Known(t) == Known(u)
  {
  }

  lemma NotedStart(t: Table)
    requires NoDuplicates(t)
    ensures Noted(t, {}, ClearPresent(t))
  {
    var u := ClearPresent(t);
    FreeSlotsSame(t, u);
    KnownSame(t, u);
    assert Known(u) - Known(t) == {};
  }

  lemma KnownSlot(t: Table, r: Rom)
    ensures r in Known(t) <==> r != ZeroRom() && FirstSlot(t, r) < |t|
  {
    if r != ZeroRom() && FirstSlot(t, r) < |t| {
      assert !Free(t[FirstSlot(t, r)]);
    }
  }

  /** Taking free slot `f` puts exactly the new code on record. */
  lemma KnownTake(t: Table, f: nat, s: Sensor)
    requires f < |t| && Free(t[f]) && !Free(s)
    ensures Known(t[f := s]) == Known(t) + {s.rom}
  {
    var u := t[f := s];
    assert !Free(u[f]) && u[f].rom == s.rom;
    forall r | r in Known(t) ensures r in Known(u) {
      var i :| 0 <= i < |t| && !Free(t[i]) && r == t[i].rom;
      assert u[i] == t[i];
    }
    forall r | r in Known(u) ensures r in Known(t) + {s.rom} {
      var i :| 0 <= i < |u| && !Free(u[i]) && r == u[i].rom;
      if i != f { assert u[i] == t[i]; }
    }
  }

  lemma OldKnown(t: Table, seen: set<Rom>, u: Table)
    requires |u| == |t| && OldKept(t, seen, u)
    ensures Known(t) <= Known(u)
  {
    forall r | r in Known(t) ensures r in Known(u) {
      var i :| 0 <= i < |t| && !Free(t[i]) && r == t[i].rom;
      assert u[i].rom == r && !Free(u[i]);
    }
  }

  lemma OldStays(t: Table, seen: set<Rom>, u: Table, r: Rom, k: nat)
    requires |u| == |t| && NoDuplicates(u) && OldKept(t, seen, u)
    requires k < |u| && !Free(u[k]) && u[k].rom == r
    ensures OldKept(t, seen + {r}, u[k := u[k].(present := true)])
  {
    forall i | 0 <= i < |u| && i != k ensures u[i].rom != r {
      assert i < k && !Free(u[i]) ==> u[i].rom != u[k].rom;
      assert k < i ==> u[k].rom != u[i].rom;
    }
  }

  lemma NewStays(t: Table, seen: set<Rom>, u: Table, r: Rom, k: nat)
    requires |u| == |t| && NewMarked(t, seen, u) && k < |u|
    ensures NewMarked(t, seen + {r}, u[k := u[k].(present := true)])
  {
    var v := u[k := u[k].(present := true)];
    forall i | 0 <= i < |t| && Free(t[i]) && !Free(v[i])
      ensures v[i].present && v[i].rom in seen + {r} && v[i].rom !in Known(t)
    {
      assert v[i].rom == u[i].rom && !Free(u[i]);
    }
  }

  lemma OldTakes(t: Table, seen: set<Rom>, u: Table, f: nat, s: Sensor)
    requires |u| == |t| && OldKept(t, seen, u) && f < |u| && Free(u[f]) && s.rom !in Known(t)
    ensures OldKept(t, seen + {s.rom}, u[f := s])
  {
    forall i | 0 <= i < |t| && !Free(t[i]) ensures i != f && t[i].rom != s.rom {
      assert u[i].rom == t[i].rom && t[i].rom in Known(t);
    }
  }

  lemma NewTakes(t: Table, seen: set<Rom>, u: Table, f: nat, s: Sensor)
    requires |u| == |t| && NewMarked(t, seen, u) && f < |u| && s.present && s.rom !in Known(t)
    ensures NewMarked(t, seen + {s.rom}, u[f := s])
  {
    var v := u[f := s];
    forall i | 0 <= i < |t| && Free(t[i]) && !Free(v[i])
      ensures v[i].present && v[i].rom in seen + {s.rom} && v[i].rom !in Known(t)
    {
      if i != f { assert v[i] == u[i]; }
    }
  }

  lemma AccountedMark(t: Table, seen: set<Rom>, u: Table, r: Rom, k: nat)
    requires Accounted(t, seen, u) && k < |u| && u[k].rom == r
    ensures Accounted(t, seen + {r}, u[k := u[k].(present := true)])
  {
    var v := u[k := u[k].(present := true)];
    FreeSlotsSame(u, v);
    KnownSame(u, v);
    assert r != ZeroRom() ==> u[k].rom in Known(u);
  }

  lemma AccountedTake(t: Table, seen: set<Rom>, u: Table, f: nat, s: Sensor)
    requires Accounted(t, seen, u) && f < |u| && Free(u[f]) && !Free(s) && s.rom !in Known(u) + Known(t)
    ensures Accounted(t, seen + {s.rom}, u[f := s])
  {
    hide Known, FreeSlots;
    var v := u[f := s];
    KnownTake(u, f, s);
    FreeSlotsTake(u, f, s);
    assert Known(v) - Known(t) == (Known(u) - Known(t)) + {s.rom};
    NoFreeSlot(u);
  }

  lemma MarkNoDuplicates(u: Table, k: nat)
    requires NoDuplicates(u) && k < |u|
    ensures NoDuplicates(u[k := u[k].(present := true)])
  {
    var v := u[k := u[k].(present := true)];
    forall i | 0 <= i < |u| ensures v[i].rom == u[i].rom { }
  }

  /** The seen code has a slot already: only its mark changes. */
  lemma NotedMark(t: Table, seen: set<Rom>, u: Table, r: Rom, k: nat)
    requires Noted(t, seen, u) && k == FirstSlot(u, r) < |u| && r != ZeroRom()
    ensures Noted(t, seen + {r}, u[k := u[k].(present := true)])
  {
    MarkNoDuplicates(u, k);
    OldStays(t, seen, u, r, k);
    NewStays(t, seen, u, r, k);
    AccountedMark(t, seen, u, r, k);
  }

  lemma OldZero(t: Table, seen: set<Rom>, u: Table, k: nat)
    requires |u| == |t| && OldKept(t, seen, u) && k < |u| && Free(u[k])
    ensures OldKept(t, seen + {ZeroRom()}, u[k := u[k].(present := true)])
  {
    forall i | 0 <= i < |t| && !Free(t[i]) ensures i != k {
      assert u[i].rom == t[i].rom;
    }
  }

  /** A zero code only touches the mark of a free slot. */
  lemma NotedZero(t: Table, seen: set<Rom>, u: Table, k: nat)
    requires Noted(t, seen, u) && k == FirstSlot(u, ZeroRom()) < |u|
    ensures Noted(t, seen + {ZeroRom()}, u[k := u[k].(present := true)])
  {
    MarkNoDuplicates(u, k);
    OldZero(t, seen, u, k);
    NewStays(t, seen, u, ZeroRom(), k);
    AccountedMark(t, seen, u, ZeroRom(), k);
  }

  lemma TakeNoDuplicates(u: Table, f: nat, s: Sensor)
    requires NoDuplicates(u) && f < |u| && Free(u[f]) && !Free(s) && FirstSlot(u, s.rom) == |u|
    ensures NoDuplicates(u[f := s])
  {
    var v := u[f := s];
    forall i, j | 0 <= i < j < |v| && !Free(v[i]) ensures v[i].rom != v[j].rom {
      if i == f { assert v[j] == u[j]; } else { assert v[i] == u[i]; }
    }
  }

  /** The seen code is new and there is room. */
  lemma NotedTake(t: Table, seen: set<Rom>, u: Table, r: Rom, f: nat)
    requires Noted(t, seen, u) && FirstSlot(u, r) == |u| && f == FirstSlot(u, ZeroRom()) < |u|
    ensures Noted(t, seen + {r}, u[f := u[f].(rom := r, present := true, readDelay := 1)])
  {
    var s := u[f].(rom := r, present := true, readDelay := 1);
    assert u[f].rom == ZeroRom();
    KnownSlot(u, r);
    OldKnown(t, seen, u);
    TakeNoDuplicates(u, f, s);
    OldTakes(t, seen, u, f, s);
    NewTakes(t, seen, u, f, s);
    AccountedTake(t, seen, u, f, s);
  }

  /** The seen code is new and the table is full. */
  lemma NotedDrop(t: Table, seen: set<Rom>, u: Table, r: Rom)
    requires Noted(t, seen, u) && FirstSlot(u, r) == |u| && FirstSlot(u, ZeroRom()) == |u|
    ensures Noted(t, seen + {r}, u)
  {
    NoFreeSlot(u);
    forall i | 0 <= i < |t| && !Free(t[i]) ensures t[i].rom != r {
      assert u[i].rom == t[i].rom;
    }
  }

  lemma NotedOne(t: Table, seen: set<Rom>, u: Table, r: Rom)
    requires Noted(t, seen, u)
    ensures Noted(t, seen + {r}, Note(u, r))
  {
    if FirstSlot(u, r) < |u| {
      if r == ZeroRom() {
        NotedZero(t, seen, u, FirstSlot(u, r));
      } else {
        NotedMark(t, seen, u, r, FirstSlot(u, r));
      }
    } else if FirstSlot(u, ZeroRom()) < |u| {
      NotedTake(t, seen, u, r, FirstSlot(u, ZeroRom()));
    } else {
      NotedDrop(t, seen, u, r);
    }
  }

  ghost function Elements(roms: seq<Rom>): set<Rom> {
    set r | r in roms
  }

  lemma {:induction false} NoteAllNoted(t: Table, seen: set<Rom>, u: Table, roms: seq<Rom>)
    requires Noted(t, seen, u)
    ensures Noted(t, seen + Elements(roms), NoteAll(u, roms))
    decreases |roms|
  {
    if roms == [] {
      assert seen + Elements(roms) == seen;
    } else {
      assert seen + Elements(roms) == seen + {roms[0]} + Elements(roms[1..]) by {
        assert roms == [roms[0]] + roms[1..];
      }
      NotedOne(t, seen, u, roms[0]);
      NoteAllNoted(t, seen + {roms[0]}, Note(u, roms[0]), roms[1..]);
    }
  }

  lemma PurgeKeepsSeen(seen: set<Rom>, u: Table)
    requires forall i :: 0 <= i < |u| && !Free(u[i]) ==> (u[i].present <==> u[i].rom in seen)
    ensures Known(Purge(u)) == Known(u) * seen
  {
    var p := Purge(u);
    forall r | r in Known(p) ensures r in Known(u) && r in seen {
      var i :| 0 <= i < |p| && !Free(p[i]) && r == p[i].rom;
      assert p[i] == u[i];
    }
    forall r | r in Known(u) && r in seen ensures r in Known(p) {
      var i :| 0 <= i < |u| && !Free(u[i]) && r == u[i].rom;
      assert p[i] == u[i];
    }
  }

  lemma PurgeKnown(t: Table, seen: set<Rom>, u: Table)
    requires Noted(t, seen, u)
    ensures Known(Purge(u)) == Known(u) * seen
  {
    hide Known, Accounted, NoDuplicates, Purge;
    forall i | 0 <= i < |t| && !Free(u[i]) ensures u[i].present <==> u[i].rom in seen {
      if !Free(t[i]) { assert u[i].rom == t[i].rom; }
    }
    PurgeKeepsSeen(seen, u);
  }

  lemma PackedElements(devices: set<Code>, run: seq<Code>)
    requires forall d :: d in run <==> d in devices
    ensures Elements(Packed(run)) == OnBus(devices)
  {
    forall d | d in devices ensures Pack(d) in Packed(run) {
      var i :| 0 <= i < |run| && run[i] == d;
      assert Packed(run)[i] == Pack(d);
    }
    forall r | r in Packed(run) ensures r in OnBus(devices) {
      var i :| 0 <= i < |run| && Packed(run)[i] == r;
      assert run[i] in devices;
    }
  }

  lemma DiscoveryNotes(t: Table, devices: set<Code>)
    requires NoDuplicates(t)
    ensures Noted(t, OnBus(devices), NoteAll(ClearPresent(t), Packed(RomSearch.Run(devices))))
  {
    NotedStart(t);
    RomSearch.RunEnumerates(devices);
    var run := RomSearch.Run(devices);
    assert {} + Elements(Packed(run)) == Elements(Packed(run));
    NoteAllNoted(t, {}, ClearPresent(t), Packed(run));
    PackedElements(devices, run);
  }

  /** Discovery reconciles the table with the bus: no duplicates, only devices on the bus, devices
      that stayed keep their slot, departed ones are freed and slots are never shuffled. */
  lemma DiscoveryReconciles(t: Table, devices: set<Code>)
    requires NoDuplicates(t)
    ensures |Discovered(t, devices)| == |t| && NoDuplicates(Discovered(t, devices))
    ensures Known(Discovered(t, devices)) <= OnBus(devices)
    ensures forall i :: 0 <= i < |t| && !Free(t[i]) && t[i].rom in OnBus(devices) ==>
              Discovered(t, devices)[i].rom == t[i].rom && Discovered(t, devices)[i].present
    ensures forall i :: 0 <= i < |t| && !Free(t[i]) && t[i].rom !in OnBus(devices) ==>
              Free(Discovered(t, devices)[i])
  {
    hide Known, Accounted, NewMarked, OnBus, NoteAll, Packed;
    var u := NoteAll(ClearPresent(t), Packed(RomSearch.Run(devices)));
    DiscoveryNotes(t, devices);
    PurgeKnown(t, OnBus(devices), u);
    forall i, j | 0 <= i < j < |u| && !Free(Purge(u)[i]) ensures Purge(u)[i].rom != Purge(u)[j].rom {
      assert u[i].rom != u[j].rom;
    }
  }

  lemma SubsetSize<T>(a: set<T>, b: set<T>)
    requires a <= b
    ensures |a| <= |b| && (|a| == |b| ==> a == b)
  {
    assert b == a + (b - a);
  }

  /** The counting behind DiscoveryComplete. */
  lemma CompleteIffFits(bus: set<Rom>, before: set<Rom>, now: set<Rom>, roomBefore: nat, roomAfter: nat)
    requires ZeroRom() !in now && before <= now && now - before <= bus - {ZeroRom()} - before
    requires |now - before| == roomBefore - roomAfter
    requires forall r :: r in bus && r != ZeroRom() ==> r in now || roomAfter == 0
    ensures now * bus == bus - {ZeroRom()} <==> |bus - {ZeroRom()} - before| <= roomBefore
  {
    var newcomers := bus - {ZeroRom()} - before;
    var took := now - before;
    SubsetSize(took, newcomers);
    if bus - {ZeroRom()} <= now {
      assert took == newcomers;
      assert now * bus == bus - {ZeroRom()};
    } else {
      var r :| r in bus - {ZeroRom()} && r !in now;
      SubsetSize(took + {r}, newcomers);
      assert r !in now * bus;
    }
  }

  lemma NewcomersSeen(t: Table, seen: set<Rom>, u: Table)
    requires Noted(t, seen, u)
    ensures Known(u) - Known(t) <= seen - {ZeroRom()} - Known(t)
  {
    forall r | r in Known(u) - Known(t) ensures r in seen {
      var i :| 0 <= i < |u| && !Free(u[i]) && r == u[i].rom;
      assert t[i].rom != r;
    }
  }

  /** The table ends up holding exactly the devices on the bus if and only if the newcomers fit into
      the slots that were free before: slots of departed devices only help the next discovery, as
      SecondDiscoveryComplete says. */
  lemma DiscoveryComplete(t: Table, devices: set<Code>)
    requires NoDuplicates(t)
    ensures Known(Discovered(t, devices)) == OnBus(devices) - {ZeroRom()}
            <==> |OnBus(devices) - {ZeroRom()} - Known(t)| <= FreeSlots(t)
  {
    var bus := OnBus(devices);
    var u := NoteAll(ClearPresent(t), Packed(RomSearch.Run(devices)));
    DiscoveryNotes(t, devices);
    PurgeKnown(t, bus, u);
    OldKnown(t, bus, u);
    NewcomersSeen(t, bus, u);
    CompleteIffFits(bus, Known(t), Known(u), FreeSlots(t), FreeSlots(u));
  }

  lemma TailNoDuplicates(t: Table)
    requires NoDuplicates(t) && t != []
    ensures NoDuplicates(t[1..]) && (Free(t[0]) || t[0].rom !in Known(t[1..]))
  {
    forall i | 0 <= i < |t| - 1 ensures t[1..][i] == t[i + 1] { }
  }

  lemma KnownFirst(t: Table)
    requires t != []
    ensures Known(t) == Known(t[1..]) + if Free(t[0]) then {} else {t[0].rom}
  {
    var rest := t[1..];
    forall r | r in Known(t) ensures r in Known(rest) + if Free(t[0]) then {} else {t[0].rom} {
      var i :| 0 <= i < |t| && !Free(t[i]) && r == t[i].rom;
      if i > 0 { assert rest[i - 1] == t[i]; }
    }
    forall r | r in Known(rest) ensures r in Known(t) {
      var i :| 0 <= i < |rest| && !Free(rest[i]) && r == rest[i].rom;
      assert rest[i] == t[i + 1];
    }
  }

  /** Without duplicates every slot is free or accounts for one code on record. */
  lemma {:induction false} SlotsAddUp(t: Table)
    requires NoDuplicates(t)
    ensures |Known(t)| + FreeSlots(t) == |t|
  {
    if t == [] {
      assert Known(t) == {};
    } else {
      hide Known, NoDuplicates;
      TailNoDuplicates(t);
      SlotsAddUp(t[1..]);
      KnownFirst(t);
    }
  }

  lemma ZeroNotKnown(t: Table)
    ensures ZeroRom() !in Known(t)
  {
  }

  /** A second discovery with the same devices on the bus completes the table if and only if the
      devices fit the table at all. */
  lemma SecondDiscoveryComplete(t: Table, devices: set<Code>)
    requires NoDuplicates(t)
    ensures Known(Discovered(Discovered(t, devices), devices)) == OnBus(devices) - {ZeroRom()}
            <==> |OnBus(devices) - {ZeroRom()}| <= |t|
  {
    hide Discovered, Known, OnBus, NoDuplicates;
    var u, bus := Discovered(t, devices), OnBus(devices) - {ZeroRom()};
    DiscoveryReconciles(t, devices);
    DiscoveryComplete(u, devices);
    SlotsAddUp(u);
    ZeroNotKnown(u);
    assert bus == Known(u) + (bus - Known(u));
  }
}
