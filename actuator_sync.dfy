/** Revision 0.1 of the actuator-type userscript
    (theaipeeps-buttplug_dev_do_not_use.js): rows address devices by their
    `DeviceIndex`; a tick takes its numbers (or, with the phrase system on, an
    intensity level named by a phrase) from the LAST chat message only, and
    then flushes every mapped device, one command per actuator type, with no
    deduplication. Oscillation timers re-read the row's intensity and flush
    the row's device on each firing. */
module ActuatorSync {
  import opened Common
  import opened Tokenizer

  /** An entry of `client.devices`: its `DeviceIndex`, its name and the
      `ActuatorType` of each `ScalarCmd` descriptor (None when the device info
      has no `ScalarCmd`). The device objects of the client library have the
      `vibrate`, `oscillate`, `rotate` and `linear` methods. */
  datatype Device = Device(index: nat, name: string, actuators: Option<seq<string>>)

  /** A mapping row: the 1-based number position it follows, its oscillation
      percentage, the `DeviceIndex` and the motor (actuator position) it drives. */
  datatype Row = Row(mapping: nat, osc: nat, deviceIndex: nat, motor: nat)

  /** A device call: `device.<kind>(speeds)` for one of the four method kinds,
      or a raw `ScalarCmd` message with (Index, Speed) pairs, a missing Speed
      being JavaScript's `undefined`. */
  datatype Command =
    | Actuate(deviceIndex: nat, kind: string, speeds: seq<real>)
    | Scalar(deviceIndex: nat, scalars: seq<(nat, Option<real>)>)

  // ---------------------------------------------------------------------------
  // getDeviceByDeviceIndex

  /** `client.devices.find(d => d.DeviceIndex === index)` */
  function FindDevice(devices: seq<Device>, index: nat): (r: Option<Device>)
    ensures r.Some? ==> r.value in devices && r.value.index == index
  {
    if |devices| == 0 then None
    else if devices[0].index == index then Some(devices[0])
    else FindDevice(devices[1..], index)
  }

  /** The device found is the first one with that index, and none is found
      exactly when no device has it. */
  lemma {:induction false} FindDeviceSpec(devices: seq<Device>, index: nat)
    ensures FindDevice(devices, index).None? <==> forall k | 0 <= k < |devices| :: devices[k].index != index
    ensures FindDevice(devices, index).Some? ==>
      exists k | 0 <= k < |devices| :: devices[k] == FindDevice(devices, index).value
        && forall j | 0 <= j < k :: devices[j].index != index
  {
    if |devices| > 0 && devices[0].index != index {
      FindDeviceSpec(devices[1..], index);
      if FindDevice(devices, index).Some? {
        var k :| 0 <= k < |devices[1..]| && devices[1..][k] == FindDevice(devices, index).value
          && forall j | 0 <= j < k :: devices[1..][j].index != index;
        assert devices[k + 1] == devices[1..][k];
        forall j | 0 <= j < k + 1 ensures devices[j].index != index {
          if j > 0 { assert devices[j] == devices[1..][j - 1]; }
        }
      }
    }
  }

  // ---------------------------------------------------------------------------
  // Lower-casing and substring search

  function LowerChar(c: char): char
  {
    if 'A' <= c <= 'Z' then (c as int + 32) as char else c
  }

  /** `toLowerCase()` on ASCII letters. */
  function Lower(s: string): (r: string)
    ensures |r| == |s|
  {
    seq(|s|, i requires 0 <= i < |s| => LowerChar(s[i]))
  }

  /** p occurs in s at position i. */
  predicate OccursAt(s: string, p: string, i: int)
  {
    0 <= i && i + |p| <= |s| && s[i..i + |p|] == p
  }

  /** `s.includes(p)` */
  predicate Contains(s: string, p: string)
  {
    exists i | 0 <= i <= |s| :: OccursAt(s, p, i)
  }

  // ---------------------------------------------------------------------------
  // Grouping actuators by lowercased type (sendCommandsForDevice, stopMapping)

  /** One property of `actuatorGroups`: a lowercased type and its indices. */
  datatype Group = Group(kind: string, indices: seq<nat>)

  /** The position of the group for `kind`, if any. */
  function FindGroup(groups: seq<Group>, kind: string): (r: Option<nat>)
    ensures r.Some? ==> r.value < |groups| && groups[r.value].kind == kind
    ensures r.None? <==> forall g | 0 <= g < |groups| :: groups[g].kind != kind
  {
    if |groups| == 0 then None
    else if groups[|groups| - 1].kind == kind then Some(|groups| - 1)
    else FindGroup(groups[..|groups| - 1], kind)
  }

  /** `if (!groups[kind]) groups[kind] = []; groups[kind].push(i)` on an
      object whose properties keep insertion order. */
  function AddIndex(groups: seq<Group>, kind: string, i: nat): seq<Group>
  {
    match FindGroup(groups, kind)
    case Some(g) => groups[g := Group(kind, groups[g].indices + [i])]
    case None => groups + [Group(kind, [i])]
  }

  /** `actuatorGroups` for the actuator types `types`, in property order. */
  function Groups(types: seq<string>): seq<Group>
    decreases |types|
  {
    if |types| == 0 then []
    else AddIndex(Groups(types[..|types| - 1]), Lower(types[|types| - 1]), |types| - 1)
  }

  /** The shape of `actuatorGroups`: distinct types, no empty group, indices
      ascending within a group, groups ordered by their first index. */
  ghost predicate WellShaped(groups: seq<Group>)
  {
    && (forall a, b | 0 <= a < b < |groups| :: groups[a].kind != groups[b].kind)
    && (forall g | 0 <= g < |groups| :: |groups[g].indices| > 0)
    && (forall g, a, b | 0 <= g < |groups| && 0 <= a < b < |groups[g].indices| ::
          groups[g].indices[a] < groups[g].indices[b])
    && (forall a, b | 0 <= a < b < |groups| :: groups[a].indices[0] < groups[b].indices[0])
  }

  /** Every index is below n and sits in the group of its lowercased type. */
  ghost predicate Sound(types: seq<string>, groups: seq<Group>, n: nat)
    requires n <= |types|
  {
    forall g, k | 0 <= g < |groups| && 0 <= k < |groups[g].indices| ::
      groups[g].indices[k] < n && Lower(types[groups[g].indices[k]]) == groups[g].kind
  }

  /** Index i is in some group. */
  ghost predicate Grouped(groups: seq<Group>, i: nat)
  {
    exists g | 0 <= g < |groups| :: i in groups[g].indices
  }

  ghost predicate Covers(groups: seq<Group>, n: nat)
  {
    forall i | 0 <= i < n :: Grouped(groups, i)
  }

  /** Appending index n to the existing group of its type. */
  lemma AddToGroup(types: seq<string>, groups: seq<Group>, n: nat, g: nat)
    requires n < |types| && g < |groups| && groups[g].kind == Lower(types[n])
    requires WellShaped(groups) && Sound(types, groups, n) && Covers(groups, n)
    ensures var r := groups[g := Group(groups[g].kind, groups[g].indices + [n])];
      WellShaped(r) && Sound(types, r, n + 1) && Covers(r, n + 1)
  {
    var r := groups[g := Group(groups[g].kind, groups[g].indices + [n])];
    forall h, a, b | 0 <= h < |r| && 0 <= a < b < |r[h].indices|
      ensures r[h].indices[a] < r[h].indices[b]
    {
      if h == g && b == |groups[g].indices| {
        assert r[h].indices[a] == groups[g].indices[a];
      }
    }
    forall h | 0 <= h < |r| ensures r[h].indices[0] == groups[h].indices[0] { }
    forall i | 0 <= i < n + 1 ensures Grouped(r, i) {
      if i == n {
        assert n in r[g].indices;
      } else {
        assert Grouped(groups, i);
        var h :| 0 <= h < |groups| && i in groups[h].indices;
        assert i in r[h].indices;
      }
    }
  }

  /** Opening a new group for index n, whose type has none yet. */
  lemma AddNewGroup(types: seq<string>, groups: seq<Group>, n: nat)
    requires n < |types| && forall g | 0 <= g < |groups| :: groups[g].kind != Lower(types[n])
    requires WellShaped(groups) && Sound(types, groups, n) && Covers(groups, n)
    ensures var r := groups + [Group(Lower(types[n]), [n])];
      WellShaped(r) && Sound(types, r, n + 1) && Covers(r, n + 1)
  {
    var r := groups + [Group(Lower(types[n]), [n])];
    forall i | 0 <= i < n + 1 ensures Grouped(r, i) {
      if i == n {
        assert n in r[|groups|].indices;
      } else {
        assert Grouped(groups, i);
        var h :| 0 <= h < |groups| && i in groups[h].indices;
        assert r[h] == groups[h];
      }
    }
  }

  /** Adding index n keeps the shape, soundness and coverage. */
  lemma AddIndexKeeps(types: seq<string>, groups: seq<Group>, n: nat)
    requires n < |types| && WellShaped(groups) && Sound(types, groups, n) && Covers(groups, n)
    ensures var r := AddIndex(groups, Lower(types[n]), n);
      WellShaped(r) && Sound(types, r, n + 1) && Covers(r, n + 1)
  {
    match FindGroup(groups, Lower(types[n]))
    case Some(g) => AddToGroup(types, groups, n, g);
    case None => AddNewGroup(types, groups, n);
  }

  /** Soundness for the first n types carries over to the whole list. */
  lemma SoundPrefix(types: seq<string>, n: nat, groups: seq<Group>)
    requires n <= |types| && Sound(types[..n], groups, n)
    ensures Sound(types, groups, n)
  {
    forall g, k | 0 <= g < |groups| && 0 <= k < |groups[g].indices|
      ensures groups[g].indices[k] < n && Lower(types[groups[g].indices[k]]) == groups[g].kind
    {
      assert types[groups[g].indices[k]] == types[..n][groups[g].indices[k]];
    }
  }

  /** `actuatorGroups`: one group per distinct lowercased type, types in
      first-occurrence order, each index in the group of its own type, indices
      ascending, and every actuator index in some group. */
  lemma {:induction false} GroupsSpec(types: seq<string>)
    ensures WellShaped(Groups(types))
    ensures Sound(types, Groups(types), |types|)
    ensures Covers(Groups(types), |types|)
    decreases |types|
  {
    if |types| > 0 {
      var n := |types| - 1;
      var front := types[..n];
      var gs := Groups(front);
      GroupsSpec(front);
      SoundPrefix(types, n, gs);
      AddIndexKeeps(types, gs, n);
      assert Groups(types) == AddIndex(gs, Lower(types[n]), n);
    }
  }

  /** Each index lies in exactly one group, the one of its lowercased type. */
  lemma GroupOfIndex(types: seq<string>, i: nat)
    requires i < |types|
    ensures exists g | 0 <= g < |Groups(types)| :: i in Groups(types)[g].indices
    ensures forall g | 0 <= g < |Groups(types)| && i in Groups(types)[g].indices ::
      Groups(types)[g].kind == Lower(types[i])
  {
    GroupsSpec(types);
    assert Grouped(Groups(types), i);
    forall g | 0 <= g < |Groups(types)| && i in Groups(types)[g].indices
      ensures Groups(types)[g].kind == Lower(types[i])
    {
      var k :| 0 <= k < |Groups(types)[g].indices| && Groups(types)[g].indices[k] == i;
    }
  }

  // ---------------------------------------------------------------------------
  // Speed vectors and dispatch

  /** `mappingConfig.find(cfg => cfg.deviceIndex === index && cfg.motor === motor)`,
      as a row position. */
  function FindRow(rows: seq<Row>, index: nat, motor: nat): (r: Option<nat>)
    ensures r.Some? ==> r.value < |rows| && rows[r.value].deviceIndex == index && rows[r.value].motor == motor
  {
    if |rows| == 0 then None
    else if rows[0].deviceIndex == index && rows[0].motor == motor then Some(0)
    else match FindRow(rows[1..], index, motor)
      case Some(k) => Some(k + 1)
      case None => None
  }

  /** The first row driving that motor is the one found; none is found
      exactly when no row drives it. */
  lemma {:induction false} FindRowSpec(rows: seq<Row>, index: nat, motor: nat)
    ensures FindRow(rows, index, motor).None? <==>
      forall k | 0 <= k < |rows| :: !(rows[k].deviceIndex == index && rows[k].motor == motor)
    ensures FindRow(rows, index, motor).Some? ==>
      forall k | 0 <= k < FindRow(rows, index, motor).value :: !(rows[k].deviceIndex == index && rows[k].motor == motor)
  {
    if |rows| > 0 && !(rows[0].deviceIndex == index && rows[0].motor == motor) {
      FindRowSpec(rows[1..], index, motor);
      forall k | 1 <= k < |rows| ensures rows[k] == rows[1..][k - 1] { }
    }
  }

  /** The speed of one actuator: the first matching row's intensity, else 0. */
  function SpeedOf(rows: seq<Row>, intensity: seq<real>, index: nat, motor: nat): real
    requires |intensity| == |rows|
  {
    match FindRow(rows, index, motor)
    case Some(k) => intensity[k]
    case None => 0.0
  }

  /** The `speeds` of a group. */
  function Speeds(rows: seq<Row>, intensity: seq<real>, index: nat, indices: seq<nat>): (sp: seq<real>)
    requires |intensity| == |rows|
    ensures |sp| == |indices|
  {
    seq(|indices|, k requires 0 <= k < |indices| => SpeedOf(rows, intensity, index, indices[k]))
  }

  /** The four actuator kinds the device objects have a method for. */
  predicate Known(kind: string)
  {
    kind == "vibrate" || kind == "oscillate" || kind == "rotate" || kind == "linear"
  }

  /** The call made for one group: the device method of that kind, or the
      fallback `ScalarCmd` which reads `speeds[idx]` by actuator index. */
  function Dispatch(index: nat, g: Group, speeds: seq<real>): Command
  {
    if Known(g.kind) then Actuate(index, g.kind, speeds)
    else Scalar(index, seq(|g.indices|, k requires 0 <= k < |g.indices| =>
      (g.indices[k], if g.indices[k] < |speeds| then Some(speeds[g.indices[k]]) else None)))
  }

  function GroupCommands(index: nat, groups: seq<Group>, rows: seq<Row>, intensity: seq<real>): (cs: seq<Command>)
    requires |intensity| == |rows|
    ensures |cs| == |groups|
  {
    seq(|groups|, g requires 0 <= g < |groups| =>
      Dispatch(index, groups[g], Speeds(rows, intensity, index, groups[g].indices)))
  }

  /** `sendCommandsForDevice(device)`: nothing for a device without
      `ScalarCmd`, otherwise one command per actuator group in group order. */
  function DeviceSends(d: Device, rows: seq<Row>, intensity: seq<real>): seq<Command>
    requires |intensity| == |rows|
  {
    match d.actuators
    case None => []
    case Some(types) => GroupCommands(d.index, Groups(types), rows, intensity)
  }

  /** One command per group, to this device; for the four method kinds the
      vector has one entry per index of the group, holding the intensity of
      the first row driving that actuator or 0; with intensities in [0, 1]
      every speed is in [0, 1]. */
  lemma DeviceSendsSpec(d: Device, rows: seq<Row>, intensity: seq<real>)
    requires |intensity| == |rows| && d.actuators.Some?
    ensures var groups := Groups(d.actuators.value);
      var cs := DeviceSends(d, rows, intensity);
      && |cs| == |groups|
      && (forall g | 0 <= g < |cs| :: cs[g].deviceIndex == d.index)
      && (forall g | 0 <= g < |cs| :: cs[g].Actuate? <==> Known(groups[g].kind))
      && (forall g | 0 <= g < |cs| && cs[g].Actuate? ::
            && cs[g].kind == groups[g].kind
            && |cs[g].speeds| == |groups[g].indices|
            && forall k | 0 <= k < |groups[g].indices| ::
                 cs[g].speeds[k] == match FindRow(rows, d.index, groups[g].indices[k])
                                    case Some(r) => intensity[r]
                                    case None => 0.0)
      && ((forall r | 0 <= r < |rows| :: 0.0 <= intensity[r] <= 1.0) ==>
            forall g, k | 0 <= g < |cs| && cs[g].Actuate? && 0 <= k < |cs[g].speeds| :: 0.0 <= cs[g].speeds[k] <= 1.0)
  {
  }

  /** The fallback reads `speeds[idx]` with the actuator index rather than the
      position in the group: a device whose second actuator has an unknown
      type gets an undefined speed for it. */
  lemma FallbackReadsByActuatorIndex(rows: seq<Row>, intensity: seq<real>)
    requires |intensity| == |rows|
    ensures DeviceSends(Device(0, "toy", Some(["Vibrate", "Constrict"])), rows, intensity)[1]
      == Scalar(0, [(1, None)])
  {
    var types := ["Vibrate", "Constrict"];
    assert types[..1] == ["Vibrate"];
    assert Lower("Vibrate") == "vibrate";
    assert Lower("Constrict") == "constrict";
    assert Groups(types) == [Group("vibrate", [0]), Group("constrict", [1])];
  }

  // ---------------------------------------------------------------------------
  // Flushing every mapped device (end of checkMessages, oscillation firings)

  /** `[...new Set(rows.map(r => r.deviceIndex))]` over the first k rows. */
  function UniqueIndices(rows: seq<Row>, k: nat): seq<nat>
    requires k <= |rows|
  {
    if k == 0 then []
    else
      var prev := UniqueIndices(rows, k - 1);
      if rows[k - 1].deviceIndex in prev then prev else prev + [rows[k - 1].deviceIndex]
  }

  /** An earlier entry of `us` occurs among the first k rows before every
      occurrence of a later entry. */
  ghost predicate FirstSeenOrder(rows: seq<Row>, us: seq<nat>, k: nat)
    requires k <= |rows|
  {
    forall a, b, j | 0 <= a < b < |us| && 0 <= j < k && rows[j].deviceIndex == us[b] ::
      exists i | 0 <= i < j :: rows[i].deviceIndex == us[a]
  }

  /** Each mapped `DeviceIndex` once, in order of first appearance. */
  lemma {:induction false} UniqueIndicesSpec(rows: seq<Row>, k: nat)
    requires k <= |rows|
    ensures forall x :: x in UniqueIndices(rows, k) <==> exists i | 0 <= i < k :: rows[i].deviceIndex == x
    ensures forall a, b | 0 <= a < b < |UniqueIndices(rows, k)| :: UniqueIndices(rows, k)[a] != UniqueIndices(rows, k)[b]
    ensures FirstSeenOrder(rows, UniqueIndices(rows, k), k)
  {
    if k > 0 {
      var k' := k - 1;
      UniqueIndicesSpec(rows, k');
      var prev := UniqueIndices(rows, k');
      var us := UniqueIndices(rows, k);
      forall a, b, j | 0 <= a < b < |us| && 0 <= j < k && rows[j].deviceIndex == us[b]
        ensures exists i | 0 <= i < j :: rows[i].deviceIndex == us[a]
      {
        if b < |prev| {
          assert us[a] == prev[a] && us[b] == prev[b];
          if j == k' {
            assert prev[b] in prev;
            var j' :| 0 <= j' < k' && rows[j'].deviceIndex == prev[b];
            SeenBefore(rows, prev, k', a, b, j');
            var i :| 0 <= i < j' && rows[i].deviceIndex == prev[a];
            assert 0 <= i < j && rows[i].deviceIndex == us[a];
          } else {
            SeenBefore(rows, prev, k', a, b, j);
          }
        } else {
          assert us[a] == prev[a] && us[b] == rows[k'].deviceIndex && us[b] !in prev;
          assert j == k';
          assert prev[a] in prev;
        }
      }
    }
  }

  lemma SeenBefore(rows: seq<Row>, us: seq<nat>, k: nat, a: nat, b: nat, j: nat)
    requires k <= |rows| && FirstSeenOrder(rows, us, k)
    requires a < b < |us| && j < k && rows[j].deviceIndex == us[b]
    ensures exists i | 0 <= i < j :: rows[i].deviceIndex == us[a]
  {
    var r, x, y := rows[j], us[a], us[b];
    assert r.deviceIndex == y;
  }

  /** The sends for the device with each index in `us`, in that order. */
  function SendsFor(devices: seq<Device>, us: seq<nat>, rows: seq<Row>, intensity: seq<real>): seq<Command>
    requires |intensity| == |rows|
    decreases |us|
  {
    if |us| == 0 then []
    else
      SendsFor(devices, us[..|us| - 1], rows, intensity) + SendsOf(FindDevice(devices, us[|us| - 1]), rows, intensity)
  }

  /** The sends for a device found, or none. */
  function SendsOf(d: Option<Device>, rows: seq<Row>, intensity: seq<real>): seq<Command>
    requires |intensity| == |rows|
  {
    match d
    case Some(dv) => DeviceSends(dv, rows, intensity)
    case None => []
  }

  /** One more device of the flush. */
  lemma SendsForStep(devices: seq<Device>, us: seq<nat>, k: nat, rows: seq<Row>, intensity: seq<real>)
    requires k < |us| && |intensity| == |rows|
    ensures SendsFor(devices, us[..k + 1], rows, intensity)
         == SendsFor(devices, us[..k], rows, intensity) + SendsOf(FindDevice(devices, us[k]), rows, intensity)
  {
    assert us[..k + 1][..k] == us[..k];
  }

  /** The flush that ends every tick that reaches it. */
  function FlushSends(devices: seq<Device>, rows: seq<Row>, intensity: seq<real>): seq<Command>
    requires |intensity| == |rows|
  {
    SendsFor(devices, UniqueIndices(rows, |rows|), rows, intensity)
  }

  lemma {:induction false} SendsForSpec(devices: seq<Device>, us: seq<nat>, rows: seq<Row>, intensity: seq<real>)
    requires |intensity| == |rows|
    ensures forall c :: c in SendsFor(devices, us, rows, intensity) <==>
      exists u | u in us :: FindDevice(devices, u).Some? && c in DeviceSends(FindDevice(devices, u).value, rows, intensity)
    decreases |us|
  {
    if |us| > 0 {
      var front := us[..|us| - 1];
      var last := us[|us| - 1];
      SendsForSpec(devices, front, rows, intensity);
      assert forall u :: u in us <==> u in front || u == last;
      var a := SendsFor(devices, front, rows, intensity);
      var b := SendsOf(FindDevice(devices, last), rows, intensity);
      assert SendsFor(devices, us, rows, intensity) == a + b;
      forall c | c in a + b
        ensures exists u | u in us :: FindDevice(devices, u).Some? && c in DeviceSends(FindDevice(devices, u).value, rows, intensity)
      {
        if c in b {
          assert last in us;
        }
      }
      forall c, u | u in us && FindDevice(devices, u).Some? && c in DeviceSends(FindDevice(devices, u).value, rows, intensity)
        ensures c in a + b
      {
        if u !in front {
          assert c in b;
        }
      }
    }
  }

  /** The flush sends a command iff it is one of the commands
      `sendCommandsForDevice` makes for a mapped device that is present,
      whether or not anything changed. */
  lemma FlushSendsSpec(devices: seq<Device>, rows: seq<Row>, intensity: seq<real>)
    requires |intensity| == |rows|
    ensures forall c :: c in FlushSends(devices, rows, intensity) <==>
      exists i | 0 <= i < |rows| ::
        FindDevice(devices, rows[i].deviceIndex).Some?
        && c in DeviceSends(FindDevice(devices, rows[i].deviceIndex).value, rows, intensity)
  {
    var us := UniqueIndices(rows, |rows|);
    UniqueIndicesSpec(rows, |rows|);
    SendsForSpec(devices, us, rows, intensity);
    forall c | c in FlushSends(devices, rows, intensity)
      ensures exists i | 0 <= i < |rows| ::
        FindDevice(devices, rows[i].deviceIndex).Some?
        && c in DeviceSends(FindDevice(devices, rows[i].deviceIndex).value, rows, intensity)
    {
      var u :| u in us && FindDevice(devices, u).Some? && c in DeviceSends(FindDevice(devices, u).value, rows, intensity);
      var i :| 0 <= i < |rows| && rows[i].deviceIndex == u;
    }
    forall c, i | 0 <= i < |rows| && FindDevice(devices, rows[i].deviceIndex).Some?
        && c in DeviceSends(FindDevice(devices, rows[i].deviceIndex).value, rows, intensity)
      ensures c in FlushSends(devices, rows, intensity)
    {
      assert rows[i].deviceIndex in us;
    }
  }

  // ---------------------------------------------------------------------------
  // Stop

  /** The stop call for one group: zeros of the group's length, or a
      `ScalarCmd` with Speed 0 for each index. */
  function ZeroCommand(index: nat, g: Group): Command
  {
    if Known(g.kind) then Actuate(index, g.kind, seq(|g.indices|, _ => 0.0))
    else Scalar(index, seq(|g.indices|, k requires 0 <= k < |g.indices| => (g.indices[k], Some(0.0))))
  }

  function DeviceStops(d: Device): seq<Command>
  {
    match d.actuators
    case None => []
    case Some(types) => seq(|Groups(types)|, g requires 0 <= g < |Groups(types)| => ZeroCommand(d.index, Groups(types)[g]))
  }

  function StopsFor(devices: seq<Device>, us: seq<nat>): seq<Command>
    decreases |us|
  {
    if |us| == 0 then []
    else
      StopsFor(devices, us[..|us| - 1]) + StopsOf(FindDevice(devices, us[|us| - 1]))
  }

  /** The stops for a device found, or none. */
  function StopsOf(d: Option<Device>): seq<Command>
  {
    match d
    case Some(dv) => DeviceStops(dv)
    case None => []
  }

  /** A stop command: all speeds 0. */
  predicate AllZero(c: Command)
  {
    && (c.Actuate? ==> forall k | 0 <= k < |c.speeds| :: c.speeds[k] == 0.0)
    && (c.Scalar? ==> forall k | 0 <= k < |c.scalars| :: c.scalars[k].1 == Some(0.0))
  }

  /** One more device of the stop. */
  lemma StopsForStep(devices: seq<Device>, us: seq<nat>, k: nat)
    requires k < |us|
    ensures StopsFor(devices, us[..k + 1]) == StopsFor(devices, us[..k]) + StopsOf(FindDevice(devices, us[k]))
  {
    assert us[..k + 1][..k] == us[..k];
  }

  /** Every stop command is all zeros: a method call with an all-zero
      vector, or a `ScalarCmd` with Speed 0 throughout. */
  lemma {:induction false} StopsForZero(devices: seq<Device>, us: seq<nat>)
    ensures forall c | c in StopsFor(devices, us) :: AllZero(c)
    decreases |us|
  {
    if |us| > 0 {
      StopsForZero(devices, us[..|us| - 1]);
    }
  }

  /** Each present mapped device with `ScalarCmd` gets the zero command of
      each of its actuator groups. */
  lemma {:induction false} StopsForCover(devices: seq<Device>, us: seq<nat>, u: nat, d: Device, g: nat)
    requires u in us && FindDevice(devices, u) == Some(d) && d.actuators.Some?
    requires g < |Groups(d.actuators.value)|
    ensures ZeroCommand(d.index, Groups(d.actuators.value)[g]) in StopsFor(devices, us)
    decreases |us|
  {
    var front := us[..|us| - 1];
    if u == us[|us| - 1] {
      StopsForLast(devices, us, d, g);
    } else {
      assert u in front;
      StopsForCover(devices, front, u, d, g);
      assert StopsFor(devices, us) == StopsFor(devices, front) + StopsOf(FindDevice(devices, us[|us| - 1]));
    }
  }

  lemma StopsForLast(devices: seq<Device>, us: seq<nat>, d: Device, g: nat)
    requires |us| > 0 && FindDevice(devices, us[|us| - 1]) == Some(d) && d.actuators.Some?
    requires g < |Groups(d.actuators.value)|
    ensures ZeroCommand(d.index, Groups(d.actuators.value)[g]) in StopsFor(devices, us)
  {
    var front, own := StopsFor(devices, us[..|us| - 1]), DeviceStops(d);
    assert StopsFor(devices, us) == front + own;
    assert own[g] == ZeroCommand(d.index, Groups(d.actuators.value)[g]);
    assert (front + own)[|front| + g] == own[g];
  }

  /** The zero vector of a method-kind stop command has its group's length. */
  lemma ZeroCommandSpec(index: nat, g: Group)
    ensures ZeroCommand(index, g).deviceIndex == index
    ensures ZeroCommand(index, g).Actuate? <==> Known(g.kind)
    ensures ZeroCommand(index, g).Actuate? ==> |ZeroCommand(index, g).speeds| == |g.indices|
    ensures ZeroCommand(index, g).Scalar? ==>
      forall k | 0 <= k < |g.indices| :: ZeroCommand(index, g).scalars[k] == (g.indices[k], Some(0.0))
  {
  }

  // ---------------------------------------------------------------------------
  // Row enumeration (populateMappingSettings)

  /** `ScalarCmd.length`, or 1 without `ScalarCmd`. */
  function MotorCount(d: Device): nat
  {
    match d.actuators
    case Some(types) => |types|
    case None => 1
  }

  function TotalMotors(devices: seq<Device>): nat
  {
    if |devices| == 0 then 0 else MotorCount(devices[0]) + TotalMotors(devices[1..])
  }

  /** The rows for `devices[d..]`, numbered on from `before`; reading
      `ScalarCmd[m].ActuatorType` of a device without `ScalarCmd` throws, and
      the enumeration ends there. */
  function RowsFrom(devices: seq<Device>, d: nat, before: nat): seq<Row>
    requires d <= |devices|
    decreases |devices| - d
  {
    if d == |devices| then []
    else match devices[d].actuators
      case None => []
      case Some(types) => DeviceRows(devices[d].index, |types|, before) + RowsFrom(devices, d + 1, before + |types|)
  }

  /** The n rows of one device, numbered on from `before`, motor 0 first. */
  function DeviceRows(index: nat, n: nat, before: nat): (rs: seq<Row>)
    ensures |rs| == n && forall m | 0 <= m < n :: rs[m] == Row(before + m + 1, 0, index, m)
  {
    seq(n, m requires 0 <= m => Row(before + m + 1, 0, index, m))
  }

  /** The settings panel: its rows and the count of numbers each drop-down offers. */
  datatype Panel = Panel(rows: seq<Row>, options: nat)

  function Shown(devices: seq<Device>): seq<Device>
  {
    if |devices| > 4 then devices[..4] else devices
  }

  function PopulateMappingSettings(connected: bool, devices: seq<Device>): Option<Panel>
  {
    if !connected || |devices| == 0 then None
    else Some(Panel(RowsFrom(Shown(devices), 0, 0), TotalMotors(Shown(devices))))
  }

  /** Some row drives actuator m of the device with index e. */
  predicate Offers(rows: seq<Row>, e: nat, m: nat)
  {
    exists k | 0 <= k < |rows| :: rows[k].deviceIndex == e && rows[k].motor == m
  }

  /** Every device of `devices[d..e]` has `ScalarCmd`, so the enumeration reaches e. */
  predicate Reached(devices: seq<Device>, d: nat, e: nat)
    requires d <= e < |devices|
  {
    forall j | d <= j <= e :: devices[j].actuators.Some?
  }

  /** The row drives an actuator of a device of `devices[d..]` the enumeration reaches. */
  predicate FromReached(devices: seq<Device>, d: nat, r: Row)
    requires d <= |devices|
  {
    exists e | d <= e < |devices| :: Reached(devices, d, e)
      && r.deviceIndex == devices[e].index && r.motor < MotorCount(devices[e])
  }

  /** The rows of device d followed by those of the devices after it. */
  lemma RowsFromUnfold(devices: seq<Device>, d: nat, before: nat)
    requires d < |devices| && devices[d].actuators.Some?
    ensures var n := |devices[d].actuators.value|;
      var rs := RowsFrom(devices, d, before);
      && |rs| == n + |RowsFrom(devices, d + 1, before + n)|
      && (forall k | 0 <= k < n :: rs[k] == Row(before + k + 1, 0, devices[d].index, k))
      && (forall k | n <= k < |rs| :: rs[k] == RowsFrom(devices, d + 1, before + n)[k - n])
  {
  }

  /** The motors of the devices the enumeration reaches from d: every
      actuator up to the first device without `ScalarCmd`. */
  function ReachedMotors(devices: seq<Device>, d: nat): nat
    requires d <= |devices|
    decreases |devices| - d
  {
    if d == |devices| then 0
    else match devices[d].actuators
      case None => 0
      case Some(types) => |types| + ReachedMotors(devices, d + 1)
  }

  /** There is exactly one row per actuator of the devices reached, which is
      at most the motor count the drop-downs offer. */
  lemma {:induction false} RowsFromCount(devices: seq<Device>, d: nat, before: nat)
    requires d <= |devices|
    ensures |RowsFrom(devices, d, before)| == ReachedMotors(devices, d) <= TotalMotors(devices[d..])
    decreases |devices| - d
  {
    if d < |devices| {
      assert devices[d..][1..] == devices[d + 1..];
      if devices[d].actuators.Some? {
        RowsFromUnfold(devices, d, before);
        RowsFromCount(devices, d + 1, before + |devices[d].actuators.value|);
      }
    }
  }

  lemma TotalMotorsFront(devices: seq<Device>, d: nat, e: nat)
    requires d < e <= |devices|
    ensures TotalMotors(devices[d..e]) == MotorCount(devices[d]) + TotalMotors(devices[d + 1..e])
  {
    assert devices[d..e][1..] == devices[d + 1..e];
  }

  /** The rows `rs` (built from `devices[d..]`, numbered on from `before`)
      hold device e's rows as one block, after the motors of the devices
      between d and e. */
  predicate BlockAt(rs: seq<Row>, devices: seq<Device>, d: nat, e: nat, before: nat)
    requires d <= e < |devices|
  {
    var start := TotalMotors(devices[d..e]);
    start + MotorCount(devices[e]) <= |rs|
    && rs[start..start + MotorCount(devices[e])] == DeviceRows(devices[e].index, MotorCount(devices[e]), before + start)
  }

  /** The rows of a reached device form one block, motor 0 first, that
      starts after the motors of the devices before it. */
  lemma {:induction false} RowsFromBlocks(devices: seq<Device>, d: nat, before: nat)
    requires d <= |devices|
    ensures forall e | d <= e < |devices| && Reached(devices, d, e) :: BlockAt(RowsFrom(devices, d, before), devices, d, e, before)
    decreases |devices| - d
  {
    if d < |devices| {
      if devices[d].actuators.Some? {
        var d' := d + 1;
        var n := |devices[d].actuators.value|;
        var before' := before + n;
        RowsFromBlocks(devices, d', before');
        forall e | d <= e < |devices| && Reached(devices, d, e)
          ensures BlockAt(RowsFrom(devices, d, before), devices, d, e, before)
        {
          BlockStep(devices, d, before, e);
        }
      }
    }
  }

  /** One device more in front keeps every block in place, shifted by its motors. */
  lemma BlockStep(devices: seq<Device>, d: nat, before: nat, e: nat)
    requires d <= e < |devices| && Reached(devices, d, e)
    requires e > d ==> BlockAt(RowsFrom(devices, d + 1, before + MotorCount(devices[d])), devices, d + 1, e, before + MotorCount(devices[d]))
    ensures BlockAt(RowsFrom(devices, d, before), devices, d, e, before)
  {
    var n := |devices[d].actuators.value|;
    var head := DeviceRows(devices[d].index, n, before);
    var tail := RowsFrom(devices, d + 1, before + n);
    var rs := RowsFrom(devices, d, before);
    assert rs == head + tail;
    if e == d {
      assert devices[d..e] == [];
      assert rs[0..n] == head;
    } else {
      TotalMotorsFront(devices, d, e);
      BlockInTail(head, tail, TotalMotors(devices[d + 1..e]), MotorCount(devices[e]));
    }
  }

  lemma BlockInTail(head: seq<Row>, tail: seq<Row>, j: nat, c: nat)
    requires j + c <= |tail|
    ensures (head + tail)[|head| + j..|head| + j + c] == tail[j..j + c]
  {
  }

  /** With distinct `DeviceIndex` values, as the server hands them out, no
      two rows drive the same actuator. */
  lemma {:induction false} RowsFromDistinct(devices: seq<Device>, d: nat, before: nat)
    requires d <= |devices|
    requires forall i, j | d <= i < j < |devices| :: devices[i].index != devices[j].index
    ensures var rs := RowsFrom(devices, d, before);
      forall k, l | 0 <= k < l < |rs| :: rs[k].deviceIndex != rs[l].deviceIndex || rs[k].motor != rs[l].motor
    decreases |devices| - d
  {
    if d < |devices| && devices[d].actuators.Some? {
      var n := |devices[d].actuators.value|;
      var tail := RowsFrom(devices, d + 1, before + n);
      var rs := RowsFrom(devices, d, before);
      RowsFromUnfold(devices, d, before);
      RowsFromDistinct(devices, d + 1, before + n);
      RowsFromSound(devices, d + 1, before + n);
      forall k, l | 0 <= k < l < |rs| ensures rs[k].deviceIndex != rs[l].deviceIndex || rs[k].motor != rs[l].motor {
        if l < n {
          assert rs[k].motor == k && rs[l].motor == l;
        } else if k < n {
          assert FromReached(devices, d + 1, tail[l - n]);
          var e :| d + 1 <= e < |devices| && Reached(devices, d + 1, e)
            && tail[l - n].deviceIndex == devices[e].index && tail[l - n].motor < MotorCount(devices[e]);
          assert rs[k].deviceIndex == devices[d].index;
        } else {
          assert rs[k] == tail[k - n] && rs[l] == tail[l - n];
        }
      }
    }
  }

  lemma {:induction false} RowsFromNumbering(devices: seq<Device>, d: nat, before: nat)
    requires d <= |devices|
    ensures forall k | 0 <= k < |RowsFrom(devices, d, before)| ::
      RowsFrom(devices, d, before)[k].mapping == before + k + 1 && RowsFrom(devices, d, before)[k].osc == 0
    decreases |devices| - d
  {
    if d < |devices| && devices[d].actuators.Some? {
      RowsFromUnfold(devices, d, before);
      RowsFromNumbering(devices, d + 1, before + |devices[d].actuators.value|);
    }
  }

  lemma {:induction false} RowsFromCovers(devices: seq<Device>, d: nat, before: nat)
    requires d <= |devices|
    ensures forall e, m | d <= e < |devices| && Reached(devices, d, e) && 0 <= m < MotorCount(devices[e]) ::
      Offers(RowsFrom(devices, d, before), devices[e].index, m)
    decreases |devices| - d
  {
    if d < |devices| && devices[d].actuators.Some? {
      var n := |devices[d].actuators.value|;
      var tail := RowsFrom(devices, d + 1, before + n);
      var rs := RowsFrom(devices, d, before);
      RowsFromUnfold(devices, d, before);
      RowsFromCovers(devices, d + 1, before + n);
      forall e, m | d <= e < |devices| && Reached(devices, d, e) && 0 <= m < MotorCount(devices[e])
        ensures Offers(rs, devices[e].index, m)
      {
        if e == d {
          assert rs[m].deviceIndex == devices[e].index && rs[m].motor == m;
        } else {
          assert Reached(devices, d + 1, e);
          assert Offers(tail, devices[e].index, m);
          var k :| 0 <= k < |tail| && tail[k].deviceIndex == devices[e].index && tail[k].motor == m;
          assert rs[n + k] == tail[k];
        }
      }
    }
  }

  lemma {:induction false} RowsFromSound(devices: seq<Device>, d: nat, before: nat)
    requires d <= |devices|
    ensures forall k | 0 <= k < |RowsFrom(devices, d, before)| :: FromReached(devices, d, RowsFrom(devices, d, before)[k])
    decreases |devices| - d
  {
    if d < |devices| && devices[d].actuators.Some? {
      var n := |devices[d].actuators.value|;
      var tail := RowsFrom(devices, d + 1, before + n);
      var rs := RowsFrom(devices, d, before);
      RowsFromUnfold(devices, d, before);
      RowsFromSound(devices, d + 1, before + n);
      forall k | 0 <= k < |rs| ensures FromReached(devices, d, rs[k]) {
        if k < n {
          assert Reached(devices, d, d);
        } else {
          assert FromReached(devices, d + 1, tail[k - n]);
          var e :| d + 1 <= e < |devices| && Reached(devices, d + 1, e)
            && tail[k - n].deviceIndex == devices[e].index && tail[k - n].motor < MotorCount(devices[e]);
          assert Reached(devices, d, e);
        }
      }
    }
  }

  /** The settings panel: nothing without a connection or devices; otherwise
      row k preselects `Number k+1` out of one number per motor of the first
      four devices (counting 1 for a device without `ScalarCmd`). There is
      one row per actuator of the devices before the first one without
      `ScalarCmd`, in device-then-motor blocks, and every row drives such an
      actuator. */
  lemma PopulateMappingSettingsSpec(connected: bool, devices: seq<Device>)
    ensures PopulateMappingSettings(connected, devices).None? <==> !connected || |devices| == 0
    ensures PopulateMappingSettings(connected, devices).Some? ==>
      var p := PopulateMappingSettings(connected, devices).value;
      var shown := Shown(devices);
      && |p.rows| == ReachedMotors(shown, 0) <= p.options
      && (forall k | 0 <= k < |p.rows| :: p.rows[k].mapping == k + 1 && p.rows[k].osc == 0)
      && (forall e | 0 <= e < |shown| && Reached(shown, 0, e) :: BlockAt(p.rows, shown, 0, e, 0))
      && (forall e, m | 0 <= e < |shown| && Reached(shown, 0, e) && 0 <= m < MotorCount(shown[e]) ::
            Offers(p.rows, shown[e].index, m))
      && (forall k | 0 <= k < |p.rows| :: FromReached(shown, 0, p.rows[k]))
  {
    if connected && |devices| > 0 {
      var shown := Shown(devices);
      assert shown[0..] == shown;
      RowsFromCount(shown, 0, 0);
      RowsFromBlocks(shown, 0, 0);
      RowsFromNumbering(shown, 0, 0);
      RowsFromCovers(shown, 0, 0);
      RowsFromSound(shown, 0, 0);
    }
  }

  // ---------------------------------------------------------------------------
  // Phrase levels

  /** The four intensity levels the phrase table names. */
  datatype Level = Low | Mid | High | Orgasm

  function LevelValue(l: Level): real
  {
    match l
    case Low => 0.25
    case Mid => 0.5
    case High => 0.75
    case Orgasm => 1.0
  }

  /** `intensityValue * 100`, as stored in `lastSentValues`. */
  function LevelPercent(l: Level): nat
  {
    match l
    case Low => 25
    case Mid => 50
    case High => 75
    case Orgasm => 100
  }

  /** The stored percentage is the level's value times 100; the values are
      in (0, 1] and increase from Low to Orgasm. */
  lemma LevelSpec(l: Level)
    ensures LevelPercent(l) as real == LevelValue(l) * 100.0
    ensures 0.0 < LevelValue(l) <= 1.0 && Fraction(LevelPercent(l)) == LevelValue(l)
    ensures LevelValue(Low) < LevelValue(Mid) < LevelValue(High) < LevelValue(Orgasm)
  {
  }

  /** One property of the phrase table: a level and its phrases. */
  datatype PhraseEntry = PhraseEntry(level: Level, phrases: seq<string>)

  /** The entry has a phrase found (case-insensitively) in the message. */
  predicate Mentions(e: PhraseEntry, msg: string)
  {
    exists p | p in e.phrases :: Contains(Lower(msg), Lower(p))
  }

  /** The level search of the phrase path: the first entry, in table order,
      with a phrase in the message. */
  function FindLevel(table: seq<PhraseEntry>, msg: string): Option<Level>
  {
    if |table| == 0 then None
    else if Mentions(table[0], msg) then Some(table[0].level)
    else FindLevel(table[1..], msg)
  }

  lemma {:induction false} FindLevelSpec(table: seq<PhraseEntry>, msg: string)
    ensures FindLevel(table, msg).None? <==> forall j | 0 <= j < |table| :: !Mentions(table[j], msg)
    ensures FindLevel(table, msg).Some? ==>
      exists j | 0 <= j < |table| :: table[j].level == FindLevel(table, msg).value && Mentions(table[j], msg)
        && forall i | 0 <= i < j :: !Mentions(table[i], msg)
  {
    if |table| > 0 && !Mentions(table[0], msg) {
      FindLevelSpec(table[1..], msg);
      forall j | 1 <= j < |table| ensures table[j] == table[1..][j - 1] { }
      if FindLevel(table, msg).Some? {
        var j :| 0 <= j < |table[1..]| && table[1..][j].level == FindLevel(table, msg).value
          && Mentions(table[1..][j], msg) && forall i | 0 <= i < j :: !Mentions(table[1..][i], msg);
        assert table[j + 1] == table[1..][j];
      }
    }
  }

  /** The table has no phrase at all (the fetch failed, or all lists are empty). */
  predicate NoPhrases(table: seq<PhraseEntry>)
  {
    forall j | 0 <= j < |table| :: |table[j].phrases| == 0
  }

  /** Only the last message is examined: it is the number message if it has a
      digit and the phrase message otherwise. */
  datatype Selected = NoMessage | NumberMsg(text: string) | PhraseMsg(text: string)

  function SelectMessage(msgs: seq<string>): Selected
  {
    if |msgs| == 0 then NoMessage
    else if HasDigit(msgs[|msgs| - 1]) then NumberMsg(msgs[|msgs| - 1])
    else PhraseMsg(msgs[|msgs| - 1])
  }

  /** Earlier messages never matter, even when they hold a digit and the last does not. */
  lemma SelectMessageSpec(msgs: seq<string>, earlier: seq<string>)
    requires |msgs| > 0
    ensures SelectMessage(earlier + msgs) == SelectMessage([msgs[|msgs| - 1]])
    ensures SelectMessage(msgs).NumberMsg? <==> HasDigit(msgs[|msgs| - 1])
    ensures SelectMessage(msgs).PhraseMsg? ==> LatestWithDigit([msgs[|msgs| - 1]]).None?
  {
    assert (earlier + msgs)[|earlier + msgs| - 1] == msgs[|msgs| - 1];
    LatestWithDigitSpec([msgs[|msgs| - 1]]);
  }

  // ---------------------------------------------------------------------------
  // The tick (checkMessages) as functions of the state before it

  /** The per-row state: `lastSentValues[i]`, `mappingObj.intensity`, whether
      `oscillationTimers[i]` is set, `oscillationBases[i]` and
      `oscillationStartTime[i]`. */
  datatype RowState = RowState(last: Option<nat>, intensity: real, active: bool, base: Option<real>, start: Option<int>)

  /** An intensity in [0, 1], and a running timer has a base in [0, 1]. */
  predicate SaneRow(st: RowState)
  {
    && 0.0 <= st.intensity <= 1.0
    && (st.active ==> st.base.Some? && 0.0 <= st.base.value <= 1.0)
  }

  /** Row r finds its number in this tick (`mapping - 1 < numberMatches.length`). */
  predicate InRange(r: Row, tokens: seq<nat>)
  {
    1 <= r.mapping <= |tokens|
  }

  /** One row of the number path: a new value is recorded and becomes the
      intensity (a running timer keeps running); a repeated value starts a
      timer based on the current intensity when the slider is above 0 and none
      runs, and stops the timer when the slider is 0. */
  function NumberStep(r: Row, tokens: seq<nat>, st: RowState, now: int): RowState
  {
    if !InRange(r, tokens) then st
    else
      var v := tokens[r.mapping - 1];
      if st.last != Some(v) then st.(last := Some(v), intensity := Fraction(v))
      else if r.osc > 0 then
        if st.active then st else st.(active := true, base := Some(st.intensity), start := Some(now))
      else st.(active := false)
  }

  /** One row of the phrase path: every row takes the level's value (and its
      percentage as the last value); the timers follow the slider as on the
      number path, a new timer being based on the level's value. */
  function PhraseStep(r: Row, l: Level, st: RowState, now: int): RowState
  {
    var upd := st.(last := Some(LevelPercent(l)), intensity := LevelValue(l));
    if r.osc > 0 then
      if st.active then upd else upd.(active := true, base := Some(LevelValue(l)), start := Some(now))
    else upd.(active := false)
  }

  function NumberTick(rows: seq<Row>, tokens: seq<nat>, states: seq<RowState>, now: int): (r: seq<RowState>)
    requires |states| == |rows|
    ensures |r| == |rows|
  {
    seq(|rows|, i requires 0 <= i < |rows| => NumberStep(rows[i], tokens, states[i], now))
  }

  function PhraseTick(rows: seq<Row>, l: Level, states: seq<RowState>, now: int): (r: seq<RowState>)
    requires |states| == |rows|
    ensures |r| == |rows|
  {
    seq(|rows|, i requires 0 <= i < |rows| => PhraseStep(rows[i], l, states[i], now))
  }

  /** A tick either returns before the flush, changing nothing (no message; no
      number message or no number in range on the number path; the
      `TypeError` of reading the phrase message when the last message has a
      digit and the table has a phrase), or reaches the flush with new row
      states. */
  datatype TickResult = Aborted | Updated(states: seq<RowState>)

  function Tick(rows: seq<Row>, states: seq<RowState>, msgs: seq<string>, usePhrase: bool,
                vPrefix: bool, table: seq<PhraseEntry>, now: int): TickResult
    requires |states| == |rows|
  {
    match SelectMessage(msgs)
    case NoMessage => Aborted
    case NumberMsg(text) =>
      if usePhrase then (if NoPhrases(table) then Updated(states) else Aborted)
      else if |ChatNumbers(text, vPrefix)| == 0 then Aborted
      else Updated(NumberTick(rows, ChatNumbers(text, vPrefix), states, now))
    case PhraseMsg(text) =>
      if !usePhrase then Aborted
      else match FindLevel(table, text)
        case None => Updated(states)
        case Some(l) => Updated(PhraseTick(rows, l, states, now))
  }

  function Intensities(states: seq<RowState>): (r: seq<real>)
    ensures |r| == |states|
  {
    seq(|states|, i requires 0 <= i < |states| => states[i].intensity)
  }

  /** Both paths keep every row sane, given numbers in 0..100. */
  lemma StepsKeepSane(r: Row, tokens: seq<nat>, l: Level, st: RowState, now: int)
    requires SaneRow(st) && forall k | 0 <= k < |tokens| :: tokens[k] <= 100
    ensures SaneRow(NumberStep(r, tokens, st, now))
    ensures SaneRow(PhraseStep(r, l, st, now))
  {
    if InRange(r, tokens) {
      FractionRange(tokens[r.mapping - 1]);
    }
  }

  /** A tick keeps every row sane. */
  lemma TickKeepsSane(rows: seq<Row>, states: seq<RowState>, msgs: seq<string>, usePhrase: bool,
                      vPrefix: bool, table: seq<PhraseEntry>, now: int)
    requires |states| == |rows| && forall i | 0 <= i < |rows| :: SaneRow(states[i])
    ensures Tick(rows, states, msgs, usePhrase, vPrefix, table, now).Updated? ==>
      var st := Tick(rows, states, msgs, usePhrase, vPrefix, table, now).states;
      |st| == |rows| && forall i | 0 <= i < |rows| :: SaneRow(st[i])
  {
    if SelectMessage(msgs).NumberMsg? {
      var tokens := ChatNumbers(SelectMessage(msgs).text, vPrefix);
      FilterRangeSpec(Tokens(SelectMessage(msgs).text, vPrefix));
      forall i | 0 <= i < |rows| ensures SaneRow(NumberStep(rows[i], tokens, states[i], now)) {
        StepsKeepSane(rows[i], tokens, Low, states[i], now);
      }
    } else if SelectMessage(msgs).PhraseMsg? && FindLevel(table, SelectMessage(msgs).text).Some? {
      var l := FindLevel(table, SelectMessage(msgs).text).value;
      forall i | 0 <= i < |rows| ensures SaneRow(PhraseStep(rows[i], l, states[i], now)) {
        StepsKeepSane(rows[i], [], l, states[i], now);
      }
    }
  }

  /** When the tick returns before the flush: exactly when there is no
      message, when the phrase system is off and the last message yields no
      number in 0..100 (which includes a last message without a digit), or
      when it is on, the last message has a digit and the table a phrase. */
  lemma TickAbortedSpec(rows: seq<Row>, states: seq<RowState>, msgs: seq<string>, usePhrase: bool,
                        vPrefix: bool, table: seq<PhraseEntry>, now: int)
    requires |states| == |rows|
    ensures Tick(rows, states, msgs, usePhrase, vPrefix, table, now).Aborted? <==>
      || |msgs| == 0
      || (!usePhrase && |ChatNumbers(msgs[|msgs| - 1], vPrefix)| == 0)
      || (usePhrase && HasDigit(msgs[|msgs| - 1]) && !NoPhrases(table))
  {
    if |msgs| > 0 {
      NumbersNeedDigit(msgs[|msgs| - 1], vPrefix);
    }
  }

  /** Only the last message counts: messages before it change nothing. */
  lemma TickSeesLastOnly(rows: seq<Row>, states: seq<RowState>, msgs: seq<string>, earlier: seq<string>,
                         usePhrase: bool, vPrefix: bool, table: seq<PhraseEntry>, now: int)
    requires |states| == |rows| && |msgs| > 0
    ensures Tick(rows, states, earlier + msgs, usePhrase, vPrefix, table, now)
         == Tick(rows, states, [msgs[|msgs| - 1]], usePhrase, vPrefix, table, now)
  {
    SelectMessageSpec(msgs, earlier);
  }

  /** The number path: every row that finds its number ends with that number
      as its last value; a new number becomes its intensity, while a repeated
      one keeps the intensity and leaves a timer running exactly when the
      slider is above 0, based on the intensity when it started now. Rows
      without a number keep their state. */
  lemma NumberTickSpec(rows: seq<Row>, tokens: seq<nat>, states: seq<RowState>, now: int, i: nat)
    requires |states| == |rows| && i < |rows|
    ensures var before := states[i];
      var after := NumberTick(rows, tokens, states, now)[i];
      && (!InRange(rows[i], tokens) ==> after == before)
      && (InRange(rows[i], tokens) ==>
            var v := tokens[rows[i].mapping - 1];
            && after.last == Some(v)
            && (before.last != Some(v) ==>
                  after.intensity == Fraction(v) && after.active == before.active
                  && after.base == before.base && after.start == before.start)
            && (before.last == Some(v) ==>
                  && after.intensity == before.intensity
                  && (after.active <==> rows[i].osc > 0)
                  && (after.active && !before.active ==>
                        after.base == Some(before.intensity) && after.start == Some(now))
                  && (before.active && after.active ==> after.base == before.base && after.start == before.start)))
  {
  }

  /** A second tick on the same numbers changes no intensity and no last
      value: each row that finds a number then oscillates exactly when its
      slider is above 0. */
  lemma NumberTickRepeated(rows: seq<Row>, tokens: seq<nat>, states: seq<RowState>, now: int, later: int)
    requires |states| == |rows|
    ensures var once := NumberTick(rows, tokens, states, now);
      var twice := NumberTick(rows, tokens, once, later);
      && Intensities(twice) == Intensities(once)
      && (forall i | 0 <= i < |rows| :: twice[i].last == once[i].last)
      && (forall i | 0 <= i < |rows| && InRange(rows[i], tokens) :: twice[i].active <==> rows[i].osc > 0)
  {
    var once := NumberTick(rows, tokens, states, now);
    var twice := NumberTick(rows, tokens, once, later);
    forall i | 0 <= i < |rows| ensures twice[i].intensity == once[i].intensity {
      NumberTickSpec(rows, tokens, once, later, i);
      NumberTickSpec(rows, tokens, states, now, i);
    }
  }

  /** The phrase path: every row takes the level's value and percentage, and
      oscillates afterwards exactly when its slider is above 0; a timer
      started now is based on the level's value. */
  lemma PhraseTickSpec(rows: seq<Row>, l: Level, states: seq<RowState>, now: int, i: nat)
    requires |states| == |rows| && i < |rows|
    ensures var after := PhraseTick(rows, l, states, now)[i];
      && after.intensity == LevelValue(l)
      && after.last == Some(LevelPercent(l))
      && (after.active <==> rows[i].osc > 0)
      && (after.active && !states[i].active ==> after.base == Some(LevelValue(l)) && after.start == Some(now))
      && (after.active && states[i].active ==> after.base == states[i].base)
  {
  }

  // ---------------------------------------------------------------------------
  // Oscillation

  /** `amplitude = (osc / 100) * base` */
  function OscAmplitude(base: real, osc: nat): real
  {
    (osc as real / 100.0) * base
  }

  /** The intensity a timer firing sets: `base + amplitude * sin(...)`
      clamped to [0, 1], s being the sine's value. */
  function OscLevel(base: real, osc: nat, s: real): real
  {
    Clamp(base + OscAmplitude(base, osc) * s, 0.0, 1.0)
  }

  lemma ClampUnitWithin(b: real, a: real, t: real)
    requires 0.0 <= a <= b <= 1.0 && -a <= t <= a
    ensures b - a <= Clamp(b + t, 0.0, 1.0) <= b + a
  {
  }

  /** The level stays in [0, 1]; for a base in [0, 1] and a slider of at most
      100 it stays within the amplitude of the base, and it is the base
      itself where the sine is 0. */
  lemma OscLevelSpec(base: real, osc: nat, s: real)
    requires -1.0 <= s <= 1.0
    ensures 0.0 <= OscLevel(base, osc, s) <= 1.0
    ensures 0.0 <= base <= 1.0 && osc <= 100 ==>
      base - OscAmplitude(base, osc) <= OscLevel(base, osc, s) <= base + OscAmplitude(base, osc)
    ensures 0.0 <= base <= 1.0 ==> OscLevel(base, osc, 0.0) == base
  {
    var o := osc as real / 100.0;
    MulZero(o * base);
    if 0.0 <= base <= 1.0 && osc <= 100 {
      ScaledWithin(o, base, s);
      ClampUnitWithin(base, o * base, (o * base) * s);
    }
  }

  // ---------------------------------------------------------------------------
  // Grouping as the source builds it: an object keyed by type, in insertion order

  /** The groups an object with keys `order` (insertion order) and arrays `obj` holds. */
  function ObjectGroups(order: seq<string>, obj: map<string, seq<nat>>): seq<Group>
    requires forall k | 0 <= k < |order| :: order[k] in obj
  {
    seq(|order|, k requires 0 <= k < |order| => Group(order[k], obj[order[k]]))
  }

  predicate DistinctKeys(order: seq<string>)
  {
    forall a, b | 0 <= a < b < |order| :: order[a] != order[b]
  }

  /** With distinct kinds, the group found for a kind is the one holding it. */
  lemma FindGroupAt(gs: seq<Group>, j: nat)
    requires j < |gs| && forall a, b | 0 <= a < b < |gs| :: gs[a].kind != gs[b].kind
    ensures FindGroup(gs, gs[j].kind) == Some(j)
  {
  }

  /** A push onto an existing key is one `AddIndex` on the object's groups. */
  lemma PushExisting(order: seq<string>, obj: map<string, seq<nat>>, kind: string, i: nat)
    requires forall x :: x in obj <==> x in order
    requires DistinctKeys(order) && kind in obj
    ensures ObjectGroups(order, obj[kind := obj[kind] + [i]]) == AddIndex(ObjectGroups(order, obj), kind, i)
  {
    var gs := ObjectGroups(order, obj);
    var j :| 0 <= j < |order| && order[j] == kind;
    FindGroupAt(gs, j);
    var lhs := ObjectGroups(order, obj[kind := obj[kind] + [i]]);
    var rhs := gs[j := Group(kind, gs[j].indices + [i])];
    forall k | 0 <= k < |lhs| ensures lhs[k] == rhs[k] {
      if k != j {
        assert order[k] != kind;
      }
    }
  }

  /** A push onto a new key appends a group. */
  lemma PushNew(order: seq<string>, obj: map<string, seq<nat>>, kind: string, i: nat)
    requires forall x :: x in obj <==> x in order
    requires DistinctKeys(order) && kind !in obj
    ensures DistinctKeys(order + [kind])
    ensures ObjectGroups(order + [kind], obj[kind := [i]]) == AddIndex(ObjectGroups(order, obj), kind, i)
  {
    var gs := ObjectGroups(order, obj);
    assert FindGroup(gs, kind).None?;
    var lhs := ObjectGroups(order + [kind], obj[kind := [i]]);
    var rhs := gs + [Group(kind, [i])];
    forall k | 0 <= k < |lhs| ensures lhs[k] == rhs[k] {
      if k < |order| {
        assert (order + [kind])[k] == order[k] != kind;
      }
    }
  }

  lemma GroupsStep(types: seq<string>, i: nat)
    requires i < |types|
    ensures Groups(types[..i + 1]) == AddIndex(Groups(types[..i]), Lower(types[i]), i)
  {
    assert types[..i + 1][..i] == types[..i];
  }

  /** `actuatorGroups` built by the loop of `sendCommandsForDevice` and
      `stopMapping`. */
  method GroupActuators(types: seq<string>) returns (groups: seq<Group>)
    ensures groups == Groups(types)
  {
    var order: seq<string> := [];
    var obj: map<string, seq<nat>> := map[];
    var i := 0;
    while i < |types|
      invariant 0 <= i <= |types|
      invariant Builds(order, obj, types, i)
    {
      var kind := Lower(types[i]);
      PushStep(order, obj, types, i);
      if kind !in obj {
        order := order + [kind];
        obj := obj[kind := [i]];
      } else {
        obj := obj[kind := obj[kind] + [i]];
      }
      i := i + 1;
    }
    assert types[..i] == types;
    groups := seq(|order|, k requires 0 <= k < |order| => Group(order[k], obj[order[k]]));
  }

  /** The object after the first i actuators: its keys are `order`, distinct,
      and it holds the groups of those actuators. */
  ghost predicate Builds(order: seq<string>, obj: map<string, seq<nat>>, types: seq<string>, i: nat)
  {
    && i <= |types|
    && (forall x :: x in obj <==> x in order)
    && DistinctKeys(order)
    && (forall k | 0 <= k < |order| :: order[k] in obj)
    && ObjectGroups(order, obj) == Groups(types[..i])
  }

  /** One more actuator pushed onto its type's array (created if missing). */
  lemma PushStep(order: seq<string>, obj: map<string, seq<nat>>, types: seq<string>, i: nat)
    requires i < |types| && Builds(order, obj, types, i)
    ensures var kind := Lower(types[i]);
      if kind !in obj then Builds(order + [kind], obj[kind := [i]], types, i + 1)
      else Builds(order, obj[kind := obj[kind] + [i]], types, i + 1)
  {
    var kind := Lower(types[i]);
    GroupsStep(types, i);
    if kind !in obj {
      PushNew(order, obj, kind, i);
    } else {
      PushExisting(order, obj, kind, i);
    }
  }

  // ---------------------------------------------------------------------------
  // The engine

  /** The script's state: the connection and mapping flags, `mappingConfig`
      (rows with their `intensity`), the per-row arrays `lastSentValues`,
      `oscillationTimers` (set or not), `oscillationBases` and
      `oscillationStartTime`, and the log of the device calls made. */
  class Engine {
    const devices: seq<Device>
    var isConnected: bool
    var mappingStarted: bool
    var rows: seq<Row>
    var intensity: seq<real>
    var lastSentValues: seq<Option<nat>>
    var oscillationTimers: seq<bool>
    var oscillationBases: seq<Option<real>>
    var oscillationStartTime: seq<Option<int>>
    var sent: seq<Command>

    /** One entry per row in every per-row array. */
    ghost predicate Sized()
      reads this`rows, this`intensity, this`lastSentValues, this`oscillationTimers, this`oscillationBases, this`oscillationStartTime
    {
      && |intensity| == |rows| && |lastSentValues| == |rows| && |oscillationTimers| == |rows|
      && |oscillationBases| == |rows| && |oscillationStartTime| == |rows|
    }

    ghost function StateAt(i: nat): RowState
      reads this`rows, this`intensity, this`lastSentValues, this`oscillationTimers, this`oscillationBases, this`oscillationStartTime
      requires Sized() && i < |rows|
    {
      RowState(lastSentValues[i], intensity[i], oscillationTimers[i], oscillationBases[i], oscillationStartTime[i])
    }

    ghost function States(): (r: seq<RowState>)
      reads this`rows, this`intensity, this`lastSentValues, this`oscillationTimers, this`oscillationBases, this`oscillationStartTime
      requires Sized()
      ensures |r| == |rows|
    {
      var last, level, timers, bases, starts := lastSentValues, intensity, oscillationTimers, oscillationBases, oscillationStartTime;
      var n := |rows|;
      seq(n, i requires 0 <= i < n => RowState(last[i], level[i], timers[i], bases[i], starts[i]))
    }

    /** Rows number from 1 and every row is sane. */
    ghost predicate Valid()
      reads this`rows, this`intensity, this`lastSentValues, this`oscillationTimers, this`oscillationBases, this`oscillationStartTime
    {
      && Sized()
      && (forall i | 0 <= i < |rows| :: rows[i].mapping >= 1)
      && (forall i | 0 <= i < |rows| :: SaneRow(StateAt(i)))
    }

    constructor(devices: seq<Device>, connected: bool)
      ensures Valid()
      ensures this.devices == devices && isConnected == connected && !mappingStarted
      ensures rows == [] && sent == []
    {
      this.devices := devices;
      isConnected := connected;
      mappingStarted := false;
      rows := [];
      intensity := [];
      lastSentValues := [];
      oscillationTimers := [];
      oscillationBases := [];
      oscillationStartTime := [];
      sent := [];
    }

    /** The connect button's handler and the client's connection events. */
    method SetConnected(connected: bool)
      modifies this`isConnected
      ensures isConnected == connected
    {
      isConnected := connected;
    }

    /** `disconnectFromIntiface`: while connected, the flag drops and the
      mapping, the per-row arrays and the timers are cleared (the tick flag
      is left as it was); while disconnected nothing happens. */
    method Disconnect()
      requires Valid()
      modifies this`isConnected, this`rows, this`intensity, this`lastSentValues, this`oscillationTimers,
        this`oscillationBases, this`oscillationStartTime
      ensures Valid() && !isConnected
      ensures old(isConnected) ==> rows == [] && States() == []
      ensures !old(isConnected) ==> rows == old(rows) && States() == old(States())
    {
      if !isConnected {
        return;
      }
      isConnected := false;
      rows := [];
      intensity := [];
      lastSentValues := [];
      oscillationTimers := [];
      oscillationBases := [];
      oscillationStartTime := [];
    }

    /** `startMapping`: the rows read from the panel, intensity 0, no last
      value, no timer; ticks run from now on. */
    method StartMapping(settings: seq<Row>)
      requires forall i | 0 <= i < |settings| :: settings[i].mapping >= 1
      modifies this
      ensures Valid() && mappingStarted && rows == settings
      ensures States() == seq(|settings|, _ => RowState(None, 0.0, false, None, None))
      ensures isConnected == old(isConnected) && sent == old(sent)
    {
      rows := settings;
      intensity := seq(|settings|, _ => 0.0);
      lastSentValues := Nulls(|settings|);
      oscillationTimers := Falses(|settings|);
      oscillationBases := Nulls(|settings|);
      oscillationStartTime := Nulls(|settings|);
      mappingStarted := true;
    }

    /** Moving an oscillation slider (or refreshing the devices) pauses the
      ticks; the timers keep running. */
    method SliderMoved()
      modifies this`mappingStarted
      ensures !mappingStarted
    {
      mappingStarted := false;
    }

    /** The `speeds` loop of `sendCommandsForDevice` for one group. */
    method BuildSpeeds(index: nat, indices: seq<nat>) returns (speeds: seq<real>)
      requires |intensity| == |rows|
      ensures speeds == Speeds(rows, intensity, index, indices)
    {
      speeds := [];
      var k := 0;
      while k < |indices|
        invariant 0 <= k <= |indices|
        invariant speeds == Speeds(rows, intensity, index, indices)[..k]
      {
        var r := FindRow(rows, index, indices[k]);
        var speed := if r.Some? then intensity[r.value] else 0.0;
        speeds := speeds + [speed];
        k := k + 1;
      }
    }

    /** `sendCommandsForDevice(device)` */
    method SendCommandsForDevice(d: Device)
      requires |intensity| == |rows|
      modifies this`sent
      ensures sent == old(sent) + DeviceSends(d, rows, intensity)
    {
      if d.actuators.None? {
        return;
      }
      var groups := GroupActuators(d.actuators.value);
      ghost var all := GroupCommands(d.index, groups, rows, intensity);
      var g := 0;
      while g < |groups|
        invariant 0 <= g <= |groups|
        invariant sent == old(sent) + all[..g]
      {
        var speeds := BuildSpeeds(d.index, groups[g].indices);
        sent := sent + [Dispatch(d.index, groups[g], speeds)];
        assert all[..g + 1] == all[..g] + [all[g]];
        g := g + 1;
      }
      assert all[..g] == all;
    }

    /** The flush: `sendCommandsForDevice` for each mapped device present. */
    method FlushDevices()
      requires |intensity| == |rows|
      modifies this`sent
      ensures sent == old(sent) + FlushSends(devices, rows, intensity)
    {
      var us := UniqueIndices(rows, |rows|);
      var k := 0;
      while k < |us|
        invariant 0 <= k <= |us|
        invariant sent == old(sent) + SendsFor(devices, us[..k], rows, intensity)
      {
        ghost var prev := sent;
        var d := FindDevice(devices, us[k]);
        ghost var step := SendsOf(d, rows, intensity);
        if d.Some? {
          SendCommandsForDevice(d.value);
        } else {
          AppendNil(prev);
        }
        SendsForStep(devices, us, k, rows, intensity);
        AppendAssoc(old(sent), SendsFor(devices, us[..k], rows, intensity), step);
        k := k + 1;
      }
      assert us[..k] == us;
    }

    /** The stop commands of one device with `ScalarCmd`. */
    method StopDevice(d: Device)
      requires d.actuators.Some?
      modifies this`sent
      ensures sent == old(sent) + DeviceStops(d)
    {
      var groups := GroupActuators(d.actuators.value);
      var g := 0;
      while g < |groups|
        invariant 0 <= g <= |groups|
        invariant sent == old(sent) + DeviceStops(d)[..g]
      {
        sent := sent + [ZeroCommand(d.index, groups[g])];
        assert DeviceStops(d)[..g + 1] == DeviceStops(d)[..g] + [DeviceStops(d)[g]];
        g := g + 1;
      }
      assert DeviceStops(d)[..g] == DeviceStops(d);
    }

    method StopDevices()
      modifies this`sent
      ensures sent == old(sent) + StopsFor(devices, UniqueIndices(rows, |rows|))
    {
      var us := UniqueIndices(rows, |rows|);
      var k := 0;
      while k < |us|
        invariant 0 <= k <= |us|
        invariant sent == old(sent) + StopsFor(devices, us[..k])
      {
        ghost var prev := sent;
        var d := FindDevice(devices, us[k]);
        ghost var step := StopsOf(d);
        if d.Some? && d.value.actuators.Some? {
          StopDevice(d.value);
        } else {
          assert step == [];
          AppendNil(prev);
        }
        StopsForStep(devices, us, k);
        AppendAssoc(old(sent), StopsFor(devices, us[..k]), step);
        k := k + 1;
      }
      assert us[..k] == us;
    }

    /** `stopMapping`: ticks and timers stop, and every mapped device present
      gets the all-zero command of each of its actuator groups. */
    method StopMapping()
      requires Valid()
      modifies this`mappingStarted, this`oscillationTimers, this`sent
      ensures Valid() && !mappingStarted
      ensures oscillationTimers == Falses(|rows|)
      ensures sent == old(sent) + StopsFor(devices, UniqueIndices(rows, |rows|))
    {
      ClearTimers();
      StopDevices();
    }

    /** The first half of `stopMapping`: the tick flag drops and every
      oscillation timer is cleared. */
    method ClearTimers()
      requires Valid()
      modifies this`mappingStarted, this`oscillationTimers
      ensures Valid() && !mappingStarted
      ensures oscillationTimers == Falses(|rows|)
    {
      mappingStarted := false;
      forall j | 0 <= j < |rows| ensures 0.0 <= intensity[j] <= 1.0 {
        assert SaneRow(StateAt(j));
      }
      oscillationTimers := Falses(|rows|);
      forall j | 0 <= j < |rows| ensures SaneRow(StateAt(j)) {
        assert !oscillationTimers[j];
      }
    }

    /** One firing of row i's oscillation timer: the row's intensity becomes
      the oscillated level and the row's device, if present, is flushed.
      s is the sine's value. */
    method Fire(i: nat, s: real)
      requires Valid() && i < |rows| && oscillationTimers[i] && oscillationBases[i].Some? && -1.0 <= s <= 1.0
      modifies this`intensity, this`sent
      ensures Valid()
      ensures intensity == old(intensity)[i := OscLevel(oscillationBases[i].value, rows[i].osc, s)]
      ensures sent == old(sent) + match FindDevice(devices, rows[i].deviceIndex)
                                  case Some(d) => DeviceSends(d, rows, intensity)
                                  case None => []
    {
      var level := OscLevel(oscillationBases[i].value, rows[i].osc, s);
      SetIntensity(i, level);
      var d := FindDevice(devices, rows[i].deviceIndex);
      if d.Some? {
        SendCommandsForDevice(d.value);
      } else {
        AppendNil(sent);
      }
    }

    /** `mappingObj.intensity = level` for row i. */
    method SetIntensity(i: nat, level: real)
      requires Valid() && i < |rows| && 0.0 <= level <= 1.0
      modifies this`intensity
      ensures Valid() && intensity == old(intensity)[i := level]
    {
      ghost var before := States();
      assert forall j | 0 <= j < |rows| :: before[j] == StateAt(j) && SaneRow(before[j]);
      intensity := intensity[i := level];
      assert forall j | 0 <= j < |rows| :: StateAt(j) == if j == i then before[j].(intensity := level) else before[j];
    }

    /** `checkMessages`: nothing while disconnected or stopped; otherwise the
      tick of the last message, and when it reaches the flush, the new row
      states and one `sendCommandsForDevice` per mapped device. */
    method CheckMessages(msgs: seq<string>, usePhrase: bool, vPrefix: bool, table: seq<PhraseEntry>, now: int)
      requires Valid()
      modifies this`intensity, this`lastSentValues, this`oscillationTimers, this`oscillationBases, this`oscillationStartTime
      modifies this`sent
      ensures Valid()
      ensures !old(isConnected) || !old(mappingStarted) ==> States() == old(States()) && sent == old(sent)
      ensures old(isConnected) && old(mappingStarted) ==>
        match Tick(rows, old(States()), msgs, usePhrase, vPrefix, table, now)
        case Aborted => States() == old(States()) && sent == old(sent)
        case Updated(st) => States() == st && sent == old(sent) + FlushSends(devices, rows, intensity)
    {
      if !isConnected || !mappingStarted {
        return;
      }
      var flush := UpdateRows(msgs, usePhrase, vPrefix, table, now);
      if flush {
        FlushDevices();
      }
    }

    /** The part of `checkMessages` before the flush: select the message,
      update the rows on the number or the phrase path, and report whether
      the flush is reached. */
    method UpdateRows(msgs: seq<string>, usePhrase: bool, vPrefix: bool, table: seq<PhraseEntry>, now: int)
      returns (flush: bool)
      requires Valid()
      modifies this`intensity, this`lastSentValues, this`oscillationTimers, this`oscillationBases, this`oscillationStartTime
      ensures Valid()
      ensures match Tick(rows, old(States()), msgs, usePhrase, vPrefix, table, now)
        case Aborted => !flush && States() == old(States())
        case Updated(st) => flush && States() == st
    {
      ghost var st0 := States();
      assert forall j | 0 <= j < |rows| :: st0[j] == StateAt(j) && SaneRow(st0[j]);
      TickKeepsSane(rows, st0, msgs, usePhrase, vPrefix, table, now);
      var sel := SelectMessage(msgs);
      if sel.NoMessage? {
        return false;
      }
      if usePhrase {
        var phraseMsg := if sel.PhraseMsg? then Some(sel.text) else None;
        if phraseMsg.None? && !NoPhrases(table) {
          return false;
        }
        var level := if phraseMsg.Some? then FindLevel(table, phraseMsg.value) else None;
        if level.Some? {
          PhraseRows(level.value, now);
        }
      } else {
        if !sel.NumberMsg? {
          return false;
        }
        var tokens := FilterRange(Tokens(sel.text, vPrefix));
        if |tokens| == 0 {
          return false;
        }
        FilterRangeSpec(Tokens(sel.text, vPrefix));
        NumberRows(tokens, now);
      }
      return true;
    }

    /** Writes the row states back into the per-row arrays. */
    method Store(st: seq<RowState>)
      requires |st| == |rows|
      modifies this`intensity, this`lastSentValues, this`oscillationTimers, this`oscillationBases, this`oscillationStartTime
      ensures Sized() && States() == st
    {
      lastSentValues := seq(|st|, i requires 0 <= i < |st| => st[i].last);
      intensity := seq(|st|, i requires 0 <= i < |st| => st[i].intensity);
      oscillationTimers := seq(|st|, i requires 0 <= i < |st| => st[i].active);
      oscillationBases := seq(|st|, i requires 0 <= i < |st| => st[i].base);
      oscillationStartTime := seq(|st|, i requires 0 <= i < |st| => st[i].start);
      assert forall i | 0 <= i < |rows| :: StateAt(i) == st[i];
    }

    /** The row loop of the number path. */
    method NumberRows(tokens: seq<nat>, now: int)
      requires Valid() && forall k | 0 <= k < |tokens| :: tokens[k] <= 100
      modifies this`intensity, this`lastSentValues, this`oscillationTimers, this`oscillationBases, this`oscillationStartTime
      ensures Valid() && States() == NumberTick(rows, tokens, old(States()), now)
    {
      ghost var st0 := States();
      assert forall j | 0 <= j < |rows| :: st0[j] == StateAt(j) && SaneRow(st0[j]);
      var last := lastSentValues;
      var level := intensity;
      var timers := oscillationTimers;
      var bases := oscillationBases;
      var starts := oscillationStartTime;
      var i := 0;
      while i < |rows|
        invariant 0 <= i <= |rows|
        invariant |last| == |level| == |timers| == |bases| == |starts| == |rows|
        invariant forall j | 0 <= j < |rows| ::
          RowState(last[j], level[j], timers[j], bases[j], starts[j])
            == if j < i then NumberStep(rows[j], tokens, st0[j], now) else st0[j]
      {
        var r := rows[i];
        if 1 <= r.mapping <= |tokens| {
          var v := tokens[r.mapping - 1];
          if last[i] != Some(v) {
            last := last[i := Some(v)];
            level := level[i := Fraction(v)];
          } else if r.osc > 0 {
            if !timers[i] {
              starts := starts[i := Some(now)];
              bases := bases[i := Some(level[i])];
              timers := timers[i := true];
            }
          } else {
            timers := timers[i := false];
          }
        }
        i := i + 1;
      }
      var n := |rows|;
      Store(seq(n, j requires 0 <= j < n => RowState(last[j], level[j], timers[j], bases[j], starts[j])));
      forall j | 0 <= j < |rows| ensures SaneRow(StateAt(j)) {
        assert StateAt(j) == States()[j];
        StepsKeepSane(rows[j], tokens, Low, st0[j], now);
      }
    }

    /** The row loop of the phrase path. */
    method PhraseRows(l: Level, now: int)
      requires Valid()
      modifies this`intensity, this`lastSentValues, this`oscillationTimers, this`oscillationBases, this`oscillationStartTime
      ensures Valid() && States() == PhraseTick(rows, l, old(States()), now)
    {
      ghost var st0 := States();
      assert forall j | 0 <= j < |rows| :: st0[j] == StateAt(j) && SaneRow(st0[j]);
      var last := lastSentValues;
      var level := intensity;
      var timers := oscillationTimers;
      var bases := oscillationBases;
      var starts := oscillationStartTime;
      var value := LevelValue(l);
      var i := 0;
      while i < |rows|
        invariant 0 <= i <= |rows|
        invariant |last| == |level| == |timers| == |bases| == |starts| == |rows|
        invariant forall j | 0 <= j < |rows| ::
          RowState(last[j], level[j], timers[j], bases[j], starts[j])
            == if j < i then PhraseStep(rows[j], l, st0[j], now) else st0[j]
      {
        level := level[i := value];
        last := last[i := Some(LevelPercent(l))];
        if rows[i].osc > 0 {
          if !timers[i] {
            starts := starts[i := Some(now)];
            bases := bases[i := Some(level[i])];
            timers := timers[i := true];
          }
        } else {
          timers := timers[i := false];
        }
        i := i + 1;
      }
      var n := |rows|;
      Store(seq(n, j requires 0 <= j < n => RowState(last[j], level[j], timers[j], bases[j], starts[j])));
      forall j | 0 <= j < |rows| ensures SaneRow(StateAt(j)) {
        assert StateAt(j) == States()[j];
        StepsKeepSane(rows[j], [], l, st0[j], now);
      }
    }
  }
}
