/** What one ROM search pass computes on a bus of devices, and what a whole run of passes finds. */
module RomSearch {
  import opened RomCodes

  /** Outcome of the 64-step walk: `Lost` is the exit taken when no device answers. */
  datatype Walked = Found(code: Code, discrepancy: int) | Lost(path: seq<bool>)

  predicate Leads(path: seq<bool>, code: seq<bool>) {
    |path| <= |code| && code[..|path|] == path
  }

  /** The devices still selected after the master has sent `path`. */
  ghost function Selected(devices: set<Code>, path: seq<bool>): set<Code> {
    set d | d in devices && Leads(path, d)
  }

  /** First read slot after `path`: the wired AND of the selected devices' bits (an idle bus floats high). */
  ghost predicate AllOnes(devices: set<Code>, path: seq<bool>)
    requires |path| < ROM_BITS
  {
    forall d | d in devices && Leads(path, d) :: d[|path|]
  }

  /** Second read slot: the wired AND of the complements. */
  ghost predicate AllZeros(devices: set<Code>, path: seq<bool>)
    requires |path| < ROM_BITS
  {
    forall d | d in devices && Leads(path, d) :: !d[|path|]
  }

  /** The branch taken at a discrepancy. */
  predicate Choice(prev: Code, last: int, i: nat)
    requires i < ROM_BITS
  {
    if i == last then true else if i > last then false else prev[i]
  }

  /** Both bit values occur among the devices that follow `path`. */
  ghost predicate Conflict(devices: set<Code>, path: seq<bool>)
    requires |path| < ROM_BITS
  {
    !AllOnes(devices, path) && !AllZeros(devices, path)
  }

  /** The bit the master sends after `path`. */
  ghost predicate Sent(devices: set<Code>, prev: Code, last: int, path: seq<bool>)
    requires |path| < ROM_BITS
  {
    if Conflict(devices, path) then Choice(prev, last, |path|) else AllOnes(devices, path)
  }

  /** The discrepancy on record after that bit. */
  ghost function Marked(devices: set<Code>, prev: Code, last: int, path: seq<bool>, discrepancy: int): int
    requires |path| < ROM_BITS
  {
    if Conflict(devices, path) && !Choice(prev, last, |path|) then |path| else discrepancy
  }

  ghost function Walk(devices: set<Code>, prev: Code, last: int, path: seq<bool>, discrepancy: int): Walked
    requires |path| <= ROM_BITS
    decreases ROM_BITS - |path|
  {
    if |path| == ROM_BITS then Found(path, discrepancy)
    else if AllOnes(devices, path) && AllZeros(devices, path) then Lost(path)
    else Walk(devices, prev, last, path + [Sent(devices, prev, last, path)],
              Marked(devices, prev, last, path, discrepancy))
  }

  /** Device `code` took the 0 branch at `i` while another device, equal up to `i`, has a 1 there. */
  ghost predicate Fork(devices: set<Code>, code: seq<bool>, i: int) {
    0 <= i < |code| && !code[i] && exists d :: d in devices && Leads(code[..i] + [true], d)
  }

  /** `k` is the largest fork of `code`, or -1 when there is none. */
  ghost predicate IsLastFork(devices: set<Code>, code: seq<bool>, k: int) {
    && -1 <= k < |code|
    && (k >= 0 ==> Fork(devices, code, k))
    && forall j :: k < j < |code| ==> !Fork(devices, code, j)
  }

  lemma ForkOfPrefix(devices: set<Code>, path: seq<bool>, b: bool, i: int)
    requires i < |path|
    ensures Fork(devices, path + [b], i) == Fork(devices, path, i)
  {
    if 0 <= i < |path| {
      assert (path + [b])[..i] == path[..i];
    }
  }

  lemma LeadsStep(path: seq<bool>, b: bool, code: Code)
    requires |path| < ROM_BITS
    ensures Leads(path + [b], code) == (Leads(path, code) && code[|path|] == b)
  {
    var i := |path|;
    assert code[..i + 1] == code[..i] + [code[i]];
    assert Leads(path + [b], code) ==> (path + [b])[..i] == path && (path + [b])[i] == b;
  }

  /** One step keeps the invariant: the walked path leads to a device and the
      recorded discrepancy is its last fork so far. */
  lemma StepKeepsLastFork(devices: set<Code>, path: seq<bool>, b: bool, k: int)
    requires |path| < ROM_BITS
    requires IsLastFork(devices, path, k)
    requires exists d :: d in Selected(devices, path) && d[|path|] == b
    ensures Selected(devices, path + [b]) != {}
    ensures IsLastFork(devices, path + [b],
                       if !b && !AllZeros(devices, path) then |path| else k)
  {
    var i := |path|;
    var d :| d in Selected(devices, path) && d[i] == b;
    assert d[..i + 1] == path + [b];
    assert d in Selected(devices, path + [b]);
    forall j | 0 <= j < i ensures Fork(devices, path + [b], j) == Fork(devices, path, j) {
      ForkOfPrefix(devices, path, b, j);
    }
    assert (path + [b])[..i] == path;
    if !AllZeros(devices, path) {
      var e :| e in Selected(devices, path) && e[i];
      assert e[..i + 1] == path + [true];
    } else {
      forall e | e in devices ensures Leads(path + [true], e) == (Leads(path, e) && e[i]) {
        LeadsStep(path, true, e);
      }
    }
  }

  /** Whatever state the master starts from: as long as one device follows the path the search
      never loses the bus, it ends at a device, and it reports that device's last fork. */
  lemma {:induction false} WalkFindsDevice(devices: set<Code>, prev: Code, last: int, path: seq<bool>, k: int)
    requires |path| <= ROM_BITS && Selected(devices, path) != {} && IsLastFork(devices, path, k)
    ensures var w := Walk(devices, prev, last, path, k);
            w.Found? && w.code in devices && Leads(path, w.code) && IsLastFork(devices, w.code, w.discrepancy)
    decreases ROM_BITS - |path|
  {
    if |path| == ROM_BITS {
      var d :| d in Selected(devices, path);
      assert d == path;
    } else {
      var d :| d in Selected(devices, path);
      assert d[|path|] || !d[|path|];
      var b := Sent(devices, prev, last, path);
      StepKeepsLastFork(devices, path, b, k);
      WalkFindsDevice(devices, prev, last, path + [b], Marked(devices, prev, last, path, k));
    }
  }

  lemma {:induction false} WalkExtends(devices: set<Code>, prev: Code, last: int, path: seq<bool>, k: int)
    requires |path| <= ROM_BITS
    ensures var w := Walk(devices, prev, last, path, k); w.Found? ==> Leads(path, w.code)
    decreases ROM_BITS - |path|
  {
    if |path| < ROM_BITS {
      WalkExtends(devices, prev, last, path + [Sent(devices, prev, last, path)], Marked(devices, prev, last, path, k));
    }
  }

  /** Past the last discrepancy the search takes 0 wherever it can, so it ends at the least device. */
  lemma {:induction false} WalkIsLeast(devices: set<Code>, prev: Code, last: int, path: seq<bool>, k: int, e: Code)
    requires last < |path| <= ROM_BITS
    requires e in Selected(devices, path)
    requires Walk(devices, prev, last, path, k).Found?
    requires Leads(path, Walk(devices, prev, last, path, k).code)
    ensures var c := Walk(devices, prev, last, path, k).code; e == c || Less(c, e)
    decreases ROM_BITS - |path|
  {
    var c := Walk(devices, prev, last, path, k).code;
    if |path| == ROM_BITS {
      assert e == path == c;
    } else {
      var i := |path|;
      var b := Sent(devices, prev, last, path);
      var k' := Marked(devices, prev, last, path, k);
      WalkExtends(devices, prev, last, path + [b], k');
      if e[i] == b {
        assert e[..i + 1] == path + [b];
        WalkIsLeast(devices, prev, last, path + [b], k', e);
      } else {
        assert c[i] == (path + [b])[i] == b;
        assert DiffersAt(c, e, i);
      }
    }
  }

  /** Up to its last fork the search retraces the previous code, then it turns to 1. */
  lemma {:induction false} WalkRetraces(devices: set<Code>, prev: Code, last: int, path: seq<bool>, k: int)
    requires prev in devices && 0 <= last && Fork(devices, prev, last)
    requires |path| <= last && path == prev[..|path|]
    ensures exists k' :: Walk(devices, prev, last, path, k) == Walk(devices, prev, last, prev[..last] + [true], k')
    decreases last - |path|
  {
    var i := |path|;
    var sel := Selected(devices, path);
    assert prev in sel;
    if i < last {
      assert prev[..i + 1] == path + [prev[i]];
      WalkRetraces(devices, prev, last, path + [prev[i]], Marked(devices, prev, last, path, k));
    } else {
      var d :| d in devices && Leads(prev[..last] + [true], d);
      assert (prev[..last] + [true])[last] == d[last];
      assert path == (prev[..last] + [true])[..last] == d[..last];
      assert d in sel && d[i] && !prev[i];
      assert Walk(devices, prev, last, path, k) == Walk(devices, prev, last, prev[..last] + [true], k);
    }
  }

  ghost function After(devices: set<Code>, code: Code): set<Code> {
    set d | d in devices && Less(code, d)
  }

  /** The search ended at the least code of `among` and recorded that code's last fork. */
  ghost predicate FindsLeastOf(devices: set<Code>, among: set<Code>, w: Walked) {
    && w.Found? && w.code in among && IsLastFork(devices, w.code, w.discrepancy)
    && forall e :: e in among ==> e == w.code || Less(w.code, e)
  }

  /** A later device forks off `prev`, at the last fork or before it. */
  lemma LaterDeviceForks(devices: set<Code>, prev: Code, last: int, e: Code)
    requires e in devices && IsLastFork(devices, prev, last) && Less(prev, e)
    ensures exists i: nat :: i <= last && DiffersAt(prev, e, i)
  {
    var i: nat :| DiffersAt(prev, e, i);
    assert e[..i + 1] == prev[..i] + [true];
    assert Fork(devices, prev, i);
  }

  /** A device after `prev` is the one found or comes after it. */
  lemma NothingBetween(devices: set<Code>, prev: Code, last: int, turn: seq<bool>, k: int, code: Code, e: Code)
    requires prev in devices && 0 <= last && IsLastFork(devices, prev, last) && turn == prev[..last] + [true]
    requires Walk(devices, prev, last, turn, k).Found? && code == Walk(devices, prev, last, turn, k).code &&
             Leads(turn, code)
    requires e in devices && Less(prev, e)
    ensures e == code || Less(code, e)
  {
    hide Walk, Fork;
    LaterDeviceForks(devices, prev, last, e);
    var i: nat :| i <= last && DiffersAt(prev, e, i);
    if i < last {
      assert code[..i] == turn[..i] == prev[..i];
      assert code[i] == turn[i] == prev[i];
      assert DiffersAt(code, e, i);
    } else {
      assert e[..last + 1] == turn;
      WalkIsLeast(devices, prev, last, turn, k, e);
    }
  }

  /** The successor lemma: the next search from a device and its last fork returns the
      lexicographically next device, and that device's last fork. */
  lemma NextIsSuccessor(devices: set<Code>, prev: Code, last: int)
    requires prev in devices && 0 <= last && IsLastFork(devices, prev, last)
    ensures FindsLeastOf(devices, After(devices, prev), Walk(devices, prev, last, [], -1))
  {
    hide Walk;
    var w := Walk(devices, prev, last, [], -1);
    assert prev in Selected(devices, []);
    WalkFindsDevice(devices, prev, last, [], -1);
    WalkRetraces(devices, prev, last, [], -1);
    var turn := prev[..last] + [true];
    var k :| w == Walk(devices, prev, last, turn, k);
    WalkExtends(devices, prev, last, turn, k);
    assert w.code[..last] == turn[..last] == prev[..last];
    assert w.code[last] == turn[last];
    assert DiffersAt(prev, w.code, last);
    forall e | e in After(devices, prev) ensures e == w.code || Less(w.code, e) {
      NothingBetween(devices, prev, last, turn, k, w.code, e);
    }
  }

  /** A first search starts at the least device; nothing about the old state matters. */
  lemma FirstIsLeast(devices: set<Code>, prev: Code)
    requires devices != {}
    ensures FindsLeastOf(devices, devices, Walk(devices, prev, -1, [], -1))
  {
    var d :| d in devices;
    assert d in Selected(devices, []);
    WalkFindsDevice(devices, prev, -1, [], -1);
    forall e | e in devices ensures var c := Walk(devices, prev, -1, [], -1).code; e == c || Less(c, e) {
      assert e in Selected(devices, []);
      WalkIsLeast(devices, prev, -1, [], -1, e);
    }
  }

  /** When no fork is left, no device comes after `code`. */
  lemma NoForkIsLast(devices: set<Code>, code: Code, e: Code)
    requires IsLastFork(devices, code, -1) && e in devices
    ensures !Less(code, e)
  {
    if Less(code, e) { LaterDeviceForks(devices, code, -1, e); }
  }

  // ----- a whole run: one first search, then next searches until 0 is returned

  lemma AfterShrinks(devices: set<Code>, a: Code, b: Code)
    requires b in devices && Less(a, b)
    ensures After(devices, b) < After(devices, a)
  {
    forall e | e in After(devices, b) ensures e in After(devices, a) { LessTransitive(a, b, e); }
    LessIrreflexive(b);
    assert b in After(devices, a) && b !in After(devices, b);
  }

  /** The codes returned by next searches until one returns 0. (The guard on `After` is there
      for termination only: by NextIsSuccessor it holds for every state a search leaves.) */
  ghost function Rest(devices: set<Code>, code: Code, last: int): seq<Code>
    decreases After(devices, code)
  {
    if 0 <= last && Walk(devices, code, last, [], -1).Found? &&
       After(devices, Walk(devices, code, last, [], -1).code) < After(devices, code)
    then
      [Walk(devices, code, last, [], -1).code] +
      Rest(devices, Walk(devices, code, last, [], -1).code, Walk(devices, code, last, [], -1).discrepancy)
    else []
  }

  /** The codes returned by one first search and next searches until one returns 0;
      an empty bus gives no presence pulse. */
  ghost function Run(devices: set<Code>): seq<Code> {
    if devices != {} && Walk(devices, ZeroCode(), -1, [], -1).Found? then
      [Walk(devices, ZeroCode(), -1, [], -1).code] +
      Rest(devices, Walk(devices, ZeroCode(), -1, [], -1).code, Walk(devices, ZeroCode(), -1, [], -1).discrepancy)
    else []
  }

  /** Unfolding Rest from a state a search leaves. */
  lemma RestUnfolds(devices: set<Code>, code: Code, last: int)
    requires code in devices && 0 <= last && IsLastFork(devices, code, last)
    ensures var w := Walk(devices, code, last, [], -1);
            && FindsLeastOf(devices, After(devices, code), w)
            && After(devices, w.code) < After(devices, code)
            && Rest(devices, code, last) == [w.code] + Rest(devices, w.code, w.discrepancy)
  {
    NextIsSuccessor(devices, code, last);
    AfterShrinks(devices, code, Walk(devices, code, last, [], -1).code);
  }

  ghost predicate Increasing(s: seq<Code>) {
    forall i, j :: 0 <= i < j < |s| ==> Less(s[i], s[j])
  }

  lemma {:induction false} RestEnumerates(devices: set<Code>, code: Code, last: int)
    requires code in devices && IsLastFork(devices, code, last)
    ensures Increasing(Rest(devices, code, last))
    ensures forall d :: d in Rest(devices, code, last) <==> d in After(devices, code)
    decreases After(devices, code)
  {
    if last < 0 {
      forall d | d in devices ensures !Less(code, d) { NoForkIsLast(devices, code, d); }
    } else {
      var w := Walk(devices, code, last, [], -1);
      RestUnfolds(devices, code, last);
      RestEnumerates(devices, w.code, w.discrepancy);
      var rest := Rest(devices, w.code, w.discrepancy);
      assert forall d :: d in After(devices, code) <==> d == w.code || d in rest;
      assert forall j :: 0 <= j < |rest| ==> rest[j] in rest;
    }
  }

  lemma IncreasingCounts(s: seq<Code>, members: set<Code>)
    requires Increasing(s) && forall d :: d in s <==> d in members
    ensures |s| == |members|
    decreases |s|
  {
    if s == [] {
      assert members == {};
    } else {
      var rest := s[1..];
      forall d | d in rest ensures d != s[0] {
        LessIrreflexive(s[0]);
        var j :| 0 <= j < |rest| && rest[j] == d;
        assert Less(s[0], s[j + 1]);
      }
      assert forall d :: d in s <==> d == s[0] || d in rest;
      IncreasingCounts(rest, members - {s[0]});
    }
  }

  /** Every code exactly once, in increasing order, with exactly |devices| successful searches. */
  lemma RunEnumerates(devices: set<Code>)
    ensures Increasing(Run(devices))
    ensures forall d :: d in Run(devices) <==> d in devices
    ensures |Run(devices)| == |devices|
  {
    hide Rest;
    if devices != {} {
      FirstIsLeast(devices, ZeroCode());
      var w := Walk(devices, ZeroCode(), -1, [], -1);
      RestEnumerates(devices, w.code, w.discrepancy);
      var rest := Rest(devices, w.code, w.discrepancy);
      LessIrreflexive(w.code);
      assert forall j :: 0 <= j < |rest| ==> rest[j] in rest;
    }
    IncreasingCounts(Run(devices), devices);
  }
}
