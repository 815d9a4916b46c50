/** The 1-Wire master over an abstract wired-AND bus with a fixed set of devices. */
module OneWire {
  import opened RomCodes
  import opened RomSearch
  import opened SensorTable

  const OW_ROM_SEARCH_ROM: bv8 := 0xF0

  /** The bus during a search: after the command every device answers three slots per bit
      (its bit, the complement, then it drops out unless the master echoes its bit). */
  class Bus {
    const devices: set<Code>
    var selected: set<Code>
    var pos: nat
    var slot: nat

    constructor (devices: set<Code>)
      ensures this.devices == devices
    {
      this.devices := devices;
      selected := {};
      pos, slot := 0, 0;
    }

    /** Presence pulse: some device is attached. */
    method Reset() returns (present: bool)
      modifies this
      ensures present <==> devices != {}
    {
      selected, pos, slot := {}, 0, 0;
      present := devices != {};
    }

    method WriteByte(command: bv8)
      modifies this
      ensures command == 0xF0 ==> selected == devices && pos == 0 && slot == 0
    {
      if command == 0xF0 {
        selected, pos, slot := devices, 0, 0;
      }
    }

    method Read() returns (level: bool)
      requires pos < ROM_BITS && slot < 2
      modifies this
      ensures slot == old(slot) + 1 && pos == old(pos) && selected == old(selected)
      ensures level == if slot == 1 then forall d | d in selected :: d[pos] else forall d | d in selected :: !d[pos]
    {
      if slot == 0 {
        level := forall d | d in selected :: d[pos];
      } else {
        level := forall d | d in selected :: !d[pos];
      }
      slot := slot + 1;
    }

    method Write(value: bool)
      requires pos < ROM_BITS && slot == 2
      modifies this
      ensures selected == set d | d in old(selected) && d[old(pos)] == value
      ensures pos == old(pos) + 1 && slot == 0
    {
      selected := set d | d in selected && d[pos] == value;
      pos, slot := pos + 1, 0;
    }
  }

  /** The two byte updates of `ow_set_address_bit`. */
  method UpdateByte(rom: array<bv8>, byte: nat, bit: bv8, val: bool)
    requires rom.Length == 8 && byte < 8
    modifies rom
    ensures forall k :: 0 <= k < 8 && k != byte ==> rom[k] == old(rom[k])
    ensures rom[byte] == if val then (old(rom[byte]) & !bit) | bit else old(rom[byte]) & !bit
  {
    rom[byte] := rom[byte] & !bit;
    if val {
      rom[byte] := rom[byte] | bit;
    }
  }

  /** `ow_set_address_bit` */
  method SetAddressBit(rom: array<bv8>, idx: nat, val: bool)
    requires rom.Length == 8 && idx < ROM_BITS
    modifies rom
    ensures Bits(rom[..]) == Bits(old(rom[..]))[idx := val]
  {
    ghost var was := rom[..];
    UpdateByte(rom, idx / 8, Mask(idx % 8), val);
    SetBitRefines(was, rom[..], idx, val);
  }

  /** `rom->bytewise[idx / 8] & _BV(idx % 8)` as a truth value. */
  method RomBit(rom: array<bv8>, idx: nat) returns (bit: bool)
    requires rom.Length == 8 && idx < ROM_BITS
    ensures bit == Bits(rom[..])[idx]
  {
    BitsAt(rom[..], idx);
    bit := rom[idx / 8] & Mask(idx % 8) != 0;
  }

  /** Bit `|path|` of the code is overwritten; what was walked and what is left stay. */
  lemma OverwriteNext(path: seq<bool>, prev: Code, b: bool)
    requires |path| < ROM_BITS
    ensures (path + prev[|path|..])[|path| := b] == path + [b] + prev[|path| + 1..]
    ensures prev[|path|] == b ==> path + prev[|path|..] == path + [b] + prev[|path| + 1..]
  {
  }

  /** Sending bit `b` keeps exactly the devices that follow `path + [b]`. */
  lemma SelectedStep(devices: set<Code>, path: seq<bool>, b: bool)
    requires |path| < ROM_BITS
    ensures Selected(devices, path + [b]) == set d | d in Selected(devices, path) && d[|path|] == b
  {
    forall d | d in devices ensures Leads(path + [b], d) == (Leads(path, d) && d[|path|] == b) {
      LeadsStep(path, b, d);
    }
  }

  lemma {:induction false} FirstSlotIs(t: Table, rom: Rom, k: nat)
    requires k <= |t| && (k < |t| ==> t[k].rom == rom) && forall i :: 0 <= i < k ==> t[i].rom != rom
    ensures k == FirstSlot(t, rom)
  {
    if t != [] && t[0].rom != rom {
      FirstSlotIs(t[1..], rom, k - 1);
    }
  }

  lemma NoteAllFirst(t: Table, code: Code, rom: Rom, rest: seq<Code>)
    requires code == Bits(rom)
    ensures NoteAll(t, Packed([code] + rest)) == NoteAll(Note(t, rom), Packed(rest))
  {
    PackBits(code, rom);
    assert Packed([code] + rest)[1..] == Packed(rest);
  }

  /** A search that fails found nothing more: the run was over. */
  lemma NoneLeft(devices: set<Code>, code: Code, last: int, t: Table)
    ensures last < 0 ==> NoteAll(t, Packed(Rest(devices, code, last))) == t
    ensures devices == {} ==> NoteAll(t, Packed(Run(devices))) == t
  {
    assert Packed([]) == [];
  }

  lemma FirstUnfolds(devices: set<Code>)
    requires devices != {}
    ensures var w := Walk(devices, ZeroCode(), -1, [], -1);
            && w.Found? && w.code in devices && IsLastFork(devices, w.code, w.discrepancy)
            && Run(devices) == [w.code] + Rest(devices, w.code, w.discrepancy)
  {
    FirstIsLeast(devices, ZeroCode());
  }

  /** The two reads tell which branch Walk takes. */
  lemma BitsRead(devices: set<Code>, prev: Code, last: int, path: seq<bool>, discrepancy: int,
                 bit1: bool, complement: bool)
    requires |path| < ROM_BITS
    requires bit1 == forall d | d in Selected(devices, path) :: d[|path|]
    requires complement == forall d | d in Selected(devices, path) :: !d[|path|]
    ensures bit1 && complement ==> Walk(devices, prev, last, path, discrepancy).Lost?
    ensures !bit1 && !complement ==>
              && Sent(devices, prev, last, path) == Choice(prev, last, |path|)
              && Marked(devices, prev, last, path, discrepancy) ==
                if Choice(prev, last, |path|) then discrepancy else |path|
    ensures bit1 != complement ==>
              Sent(devices, prev, last, path) == bit1 && Marked(devices, prev, last, path, discrepancy) == discrepancy
    ensures !(bit1 && complement) ==>
              Walk(devices, prev, last, path, discrepancy) ==
              Walk(devices, prev, last, path + [Sent(devices, prev, last, path)],
                   Marked(devices, prev, last, path, discrepancy))
  {
    assert AllOnes(devices, path) <==> forall d | d in Selected(devices, path) :: d[|path|];
    assert AllZeros(devices, path) <==> forall d | d in Selected(devices, path) :: !d[|path|];
  }

  lemma WalkFindsDeviceFromStart(devices: set<Code>, prev: Code, last: int)
    requires devices != {}
    ensures Walk(devices, prev, last, [], -1).Found?
  {
    var d :| d in devices;
    assert d in Selected(devices, []);
    WalkFindsDevice(devices, prev, last, [], -1);
  }

  class Master {
    const bus: Bus
    const currentRom: array<bv8>
    const sensors: array<Sensor>
    var lock: bool
    var lastDiscrepancy: int

    ghost predicate Valid()
      reads this
    {
      currentRom.Length == 8 && currentRom as object != sensors
    }

    ghost function Current(): Code
      requires Valid()
      reads this, currentRom
    {
      Bits(currentRom[..])
    }

    constructor (bus: Bus, slots: nat)
      ensures Valid() && this.bus == bus && sensors.Length == slots && !lock
      ensures fresh(currentRom) && fresh(sensors)
      ensures Known(sensors[..]) == {}
    {
      this.bus := bus;
      currentRom := new bv8[8](_ => 0);
      sensors := new Sensor[slots](_ => Sensor(ZeroRom(), 0, 0, 0, false, false));
      lock, lastDiscrepancy := false, 0;
    }

    /** The three-way branch of `ow_search_rom` at a discrepancy. */
    method Resolve(i: nat, discrepancy: int) returns (bit1: bool, discrepancy': int)
      requires Valid() && i < ROM_BITS
      modifies currentRom
      ensures bit1 == Choice(old(Current()), lastDiscrepancy, i)
      ensures Current() == old(Current())[i := bit1]
      ensures discrepancy' == if bit1 then discrepancy else i
    {
      discrepancy' := discrepancy;
      if i == lastDiscrepancy {
        SetAddressBit(currentRom, i, true);
        bit1 := true;
      } else if i > lastDiscrepancy {
        SetAddressBit(currentRom, i, false);
        bit1 := false;
        discrepancy' := i;
      } else {
        var romBit := RomBit(currentRom, i);
        if !romBit {
          discrepancy' := i;
        }
        bit1 := romBit;
      }
    }

    /** The 64-step loop of `ow_search_rom`, after the search command. */
    method WalkBus() returns (answered: bool, discrepancy: int)
      requires Valid() && bus.selected == bus.devices && bus.pos == 0 && bus.slot == 0
      modifies currentRom, bus
      ensures answered <==> Walk(bus.devices, old(Current()), lastDiscrepancy, [], -1).Found?
      ensures answered ==>
                Found(Current(), discrepancy) == Walk(bus.devices, old(Current()), lastDiscrepancy, [], -1)
    {
      hide Bits, Sent, Marked, AllOnes, AllZeros;
      ghost var prev, last, devices := Current(), lastDiscrepancy, bus.devices;
      ghost var path: seq<bool> := [];
      assert Selected(devices, path) == devices;
      discrepancy := -1;
      for i := 0 to ROM_BITS
        invariant |path| == i && Current() == path + prev[i..]
        invariant bus.selected == Selected(devices, path) && bus.pos == i && bus.slot == 0
        invariant Walk(devices, prev, last, [], -1) == Walk(devices, prev, last, path, discrepancy)
      {
        var bit1 := bus.Read();
        var complement := bus.Read();
        var bits := (if complement then 2 else 0) + (if bit1 then 1 else 0);
        BitsRead(devices, prev, last, path, discrepancy, bit1, complement);
        ghost var b := Sent(devices, prev, last, path);
        OverwriteNext(path, prev, b);
        if bits == 3 {
          return false, discrepancy;
        } else if bits == 0 {
          bit1, discrepancy := Resolve(i, discrepancy);
        } else {
          SetAddressBit(currentRom, i, bit1);
        }
        bus.Write(bit1);
        SelectedStep(devices, path, b);
        path := path + [b];
      }
      assert Current() == path;
      return true, discrepancy;
    }

    /** `ow_search_rom`: whatever the previous state, one pass computes Walk. */
    method SearchRom(first: bool) returns (ret: int)
      requires Valid()
      modifies this`lastDiscrepancy, currentRom, bus
      ensures !first && old(lastDiscrepancy) < 0 ==>
                ret == 0 && lastDiscrepancy == old(lastDiscrepancy) && currentRom[..] == old(currentRom[..])
      ensures (first || old(lastDiscrepancy) >= 0) && bus.devices == {} ==>
                && ret == -1
                && lastDiscrepancy == (if first then -1 else old(lastDiscrepancy))
                && currentRom[..] == (if first then ZeroRom() else old(currentRom[..]))
      ensures (first || old(lastDiscrepancy) >= 0) && bus.devices != {} ==>
                && ret == 1
                && Found(Current(), lastDiscrepancy) ==
                     Walk(bus.devices, if first then ZeroCode() else old(Current()),
                          if first then -1 else old(lastDiscrepancy), [], -1)
    {
      if first {
        lastDiscrepancy := -1;
        for i := 0 to 8
          invariant forall k :: 0 <= k < i ==> currentRom[k] == 0
          modifies currentRom
        {
          currentRom[i] := 0;
        }
        assert currentRom[..] == ZeroRom();
        ZeroPacked();
      } else {
        if lastDiscrepancy < 0 {
          return 0;
        }
      }
      var present := bus.Reset();
      if !present {
        return -1;
      }
      bus.WriteByte(OW_ROM_SEARCH_ROM);
      WalkFindsDeviceFromStart(bus.devices, Current(), lastDiscrepancy);
      var answered, discrepancy := WalkBus();
      if !answered {
        return 0;
      }
      lastDiscrepancy := discrepancy;
      return 1;
    }

    /** First slot holding `rom`; both scans of `ow_discover_sensor` have this shape. */
    method FindSlot(rom: seq<bv8>) returns (k: nat)
      requires |rom| == 8
      ensures k == FirstSlot(sensors[..], rom)
    {
      k := 0;
      while k < sensors.Length && sensors[k].rom != rom
        invariant k <= sensors.Length
        invariant forall i :: 0 <= i < k ==> sensors[i].rom != rom
      {
        k := k + 1;
      }
      FirstSlotIs(sensors[..], rom, k);
    }

    /** Record the device just found (the body of the `ret == 1` branch). */
    method NoteCurrent()
      requires Valid()
      modifies sensors
      ensures sensors[..] == Note(old(sensors[..]), currentRom[..])
    {
      var rom := currentRom[..];
      ghost var was := sensors[..];
      var i := FindSlot(rom);
      if i < sensors.Length {
        sensors[i] := sensors[i].(present := true);
        assert sensors[..] == was[i := was[i].(present := true)];
      } else {
        i := FindSlot(ZeroRom());
        if i < sensors.Length {
          sensors[i] := sensors[i].(rom := rom, present := true, readDelay := 1);
          assert sensors[..] == was[i := was[i].(rom := rom, present := true, readDelay := 1)];
        } else {
          assert sensors[..] == was == Note(was, rom);
        }
      }
      assert currentRom[..] == rom;
    }

    method ForgetMarks()
      modifies sensors
      ensures sensors[..] == ClearPresent(old(sensors[..]))
    {
      for i := 0 to sensors.Length
        invariant forall k :: 0 <= k < sensors.Length ==>
                    sensors[k] == old(if k < i then sensors[k].(present := false) else sensors[k])
      {
        sensors[i] := sensors[i].(present := false);
      }
    }

    method FreeAbsent()
      modifies sensors
      ensures sensors[..] == Purge(old(sensors[..]))
    {
      for i := 0 to sensors.Length
        invariant forall k :: 0 <= k < sensors.Length ==>
                    sensors[k] ==
                    old(if k < i && !sensors[k].present then sensors[k].(rom := ZeroRom()) else sensors[k])
      {
        if !sensors[i].present {
          sensors[i] := sensors[i].(rom := ZeroRom());
        }
      }
    }

    /** The state between two searches of one discovery. */
    ghost predicate Searching(devices: set<Code>)
      requires Valid()
      reads this, currentRom
    {
      Current() in devices && IsLastFork(devices, Current(), lastDiscrepancy)
    }

    /** `ow_discover_sensor` in the single-bus build. */
    method DiscoverSensor() returns (ret: int)
      requires Valid() && !lock
      modifies this`lock, this`lastDiscrepancy, currentRom, sensors, bus
      ensures ret == 0 && !lock
      ensures sensors[..] == Discovered(old(sensors[..]), bus.devices)
    {
      hide Walk, Note, Bits, IsLastFork;
      ghost var devices, all := bus.devices, NoteAll(ClearPresent(sensors[..]), Packed(Run(bus.devices)));
      ret := 1;
      while ret > 0
        invariant !lock ==> ret > 0 && sensors[..] == old(sensors[..])
        invariant lock && ret > 0 ==> Searching(devices)
        invariant lock && ret > 0 ==>
                    all == NoteAll(sensors[..], Packed(Rest(devices, Current(), lastDiscrepancy)))
        invariant ret <= 0 ==> sensors[..] == all
        decreases ret > 0, !lock, if lock then After(devices, Current()) else {}
      {
        var firstOnBus := !lock;
        if !lock {
          ForgetMarks();
        }
        ghost var code, last, before := Current(), lastDiscrepancy, sensors[..];
        ret := SearchRom(firstOnBus);
        lock := true;
        if ret == 1 {
          ghost var rest := Rest(devices, Current(), lastDiscrepancy);
          assert sensors[..] == before;
          if firstOnBus { FirstUnfolds(devices); } else { RestUnfolds(devices, code, last); }
          ghost var rom, found, mark := currentRom[..], Current(), lastDiscrepancy;
          NoteAllFirst(sensors[..], found, rom, rest);
          NoteCurrent();
          assert currentRom[..] == rom && Current() == found;
          assert sensors[..] == Note(before, rom);
        } else {
          assert sensors[..] == before;
          NoneLeft(devices, code, last, before);
        }
      }
      lock := false;
      FreeAbsent();
      return 0;
    }
  }
}
