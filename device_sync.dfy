/** Revision 1.3 of the userscript (theaipeeps-buttplug_dev.js): every motor of
    every device is a mapping row; a tick turns the in-range numbers of the
    latest chat message into per-row intensities, assembles one speed vector
    per device and sends it only when it differs from the vector last sent to
    that device. Oscillation is declared but never started in this revision. */
module DeviceSync {
  import opened Common
  import opened Tokenizer

  /** An entry of `client.devices`: its name, the number of `ScalarCmd`
      descriptors it reports (None when the device info has none), and whether
      the device object has a `vibrate` method. */
  datatype Device = Device(name: string, scalarCmds: Option<nat>, hasVibrate: bool)

  /** `ScalarCmd.length`, or 1 when the device reports no `ScalarCmd`. */
  function MotorCount(d: Device): nat
  {
    match d.scalarCmds
    case Some(n) => n
    case None => 1
  }

  /** A mapping row: the 1-based token position it follows, its oscillation
      percentage, and the device (position in `client.devices`) and motor it
      drives. */
  datatype Row = Row(mapping: nat, osc: nat, device: nat, motor: nat)

  /** One call `device.vibrate(speeds)` on `client.devices[device]`. */
  datatype Command = Vibrate(device: nat, speeds: seq<real>)

  /** A row as the settings panel can produce it: a number from the drop-down
      (1 or more) and a motor the device reports. */
  predicate RowFits(r: Row, devices: seq<Device>)
  {
    r.mapping >= 1 && r.device < |devices| && r.motor < MotorCount(devices[r.device])
  }

  predicate RowsFit(rows: seq<Row>, devices: seq<Device>)
  {
    forall i | 0 <= i < |rows| :: RowFits(rows[i], devices)
  }

  function Zeros(n: nat): (z: seq<real>)
    ensures |z| == n && forall m | 0 <= m < n :: z[m] == 0.0
  {
    seq(n, _ => 0.0)
  }

  // ---------------------------------------------------------------------------
  // Row enumeration (populateMappingSettings)

  function TotalMotors(devices: seq<Device>): nat
  {
    if |devices| == 0 then 0 else MotorCount(devices[0]) + TotalMotors(devices[1..])
  }

  /** The rows offered for `devices[d..]`, numbered on from `before` rows. */
  function RowsFrom(devices: seq<Device>, d: nat, before: nat): seq<Row>
    requires d <= |devices|
    decreases |devices| - d
  {
    if d == |devices| then []
    else seq(MotorCount(devices[d]), m requires 0 <= m => Row(before + m + 1, 0, d, m))
         + RowsFrom(devices, d + 1, before + MotorCount(devices[d]))
  }

  /** The settings panel: its rows (preselected number, slider at 0) and the
      number of choices `Number 1 .. Number options` each drop-down offers. */
  datatype Panel = Panel(rows: seq<Row>, options: nat)

  function Shown(devices: seq<Device>): seq<Device>
  {
    if |devices| > 4 then devices[..4] else devices
  }

  /** `populateMappingSettings`: nothing is rebuilt without a connection or
      devices; otherwise one row per motor of the first four devices. */
  function PopulateMappingSettings(connected: bool, devices: seq<Device>): Option<Panel>
  {
    if !connected || |devices| == 0 then None
    else Some(Panel(RowsFrom(Shown(devices), 0, 0), TotalMotors(Shown(devices))))
  }

  lemma {:induction false} RowsFromSpec(devices: seq<Device>, d: nat, before: nat)
    requires d <= |devices|
    ensures |RowsFrom(devices, d, before)| == TotalMotors(devices[d..])
    ensures forall k | 0 <= k < |RowsFrom(devices, d, before)| ::
      && RowsFrom(devices, d, before)[k].mapping == before + k + 1
      && RowsFrom(devices, d, before)[k].osc == 0
      && d <= RowsFrom(devices, d, before)[k].device < |devices|
      && RowsFrom(devices, d, before)[k].motor < MotorCount(devices[RowsFrom(devices, d, before)[k].device])
    ensures forall a, b | 0 <= a < b < |RowsFrom(devices, d, before)| ::
      Before(RowsFrom(devices, d, before)[a], RowsFrom(devices, d, before)[b])
    ensures forall e, m | d <= e < |devices| && 0 <= m < MotorCount(devices[e]) ::
      Offers(RowsFrom(devices, d, before), e, m)
    decreases |devices| - d
  {
    if d < |devices| {
      var n := MotorCount(devices[d]);
      var head := seq(n, m requires 0 <= m => Row(before + m + 1, 0, d, m));
      var tail := RowsFrom(devices, d + 1, before + n);
      RowsFromSpec(devices, d + 1, before + n);
      var rs := RowsFrom(devices, d, before);
      assert rs == head + tail;
      assert devices[d..][1..] == devices[d + 1..];
      forall k | n <= k < |rs| ensures rs[k] == tail[k - n] { }
      forall e, m | d <= e < |devices| && 0 <= m < MotorCount(devices[e])
        ensures Offers(rs, e, m)
      {
        if e == d {
          assert rs[m] == head[m];
        } else {
          assert Offers(tail, e, m);
          var k :| 0 <= k < |tail| && tail[k].device == e && tail[k].motor == m;
          assert rs[n + k] == tail[k];
        }
      }
    }
  }

  /** Some row drives motor m of device e. */
  predicate Offers(rows: seq<Row>, e: nat, m: nat)
  {
    exists k | 0 <= k < |rows| :: rows[k].device == e && rows[k].motor == m
  }

  /** Device-then-motor order. */
  predicate Before(a: Row, b: Row)
  {
    a.device < b.device || (a.device == b.device && a.motor < b.motor)
  }

  /** The rows of the settings panel: one per motor of the first four devices,
      in device-then-motor order, row k preselecting `Number k+1` out of as
      many numbers as there are rows, oscillation 0. */
  lemma PopulateMappingSettingsSpec(connected: bool, devices: seq<Device>)
    ensures PopulateMappingSettings(connected, devices).None? <==> !connected || |devices| == 0
    ensures PopulateMappingSettings(connected, devices).Some? ==>
      var p := PopulateMappingSettings(connected, devices).value;
      && |p.rows| == p.options
      && RowsFit(p.rows, devices)
      && (forall k | 0 <= k < |p.rows| :: p.rows[k].mapping == k + 1 && p.rows[k].osc == 0 && p.rows[k].device < 4)
      && (forall a, b | 0 <= a < b < |p.rows| :: Before(p.rows[a], p.rows[b]))
      && (forall e, m | 0 <= e < |devices| && e < 4 && 0 <= m < MotorCount(devices[e]) :: Offers(p.rows, e, m))
  {
    if connected && |devices| > 0 {
      var shown := Shown(devices);
      RowsFromSpec(shown, 0, 0);
      assert shown[0..] == shown;
      forall e | 0 <= e < |shown| ensures shown[e] == devices[e] { }
    }
  }

  // ---------------------------------------------------------------------------
  // The tick (checkMessages) as functions of the state before it

  /** Row r finds its number in this tick (`mapping - 1 < numberMatches.length`). */
  predicate InRange(r: Row, tokens: seq<nat>)
  {
    1 <= r.mapping <= |tokens|
  }

  function TokenFor(r: Row, tokens: seq<nat>): nat
    requires InRange(r, tokens)
  {
    tokens[r.mapping - 1]
  }

  /** `lastSentValues[i]` after the tick. */
  function NextLast(r: Row, last: Option<nat>, tokens: seq<nat>): Option<nat>
  {
    if InRange(r, tokens) then Some(TokenFor(r, tokens)) else last
  }

  /** `mappingObj.intensity` after the tick: recomputed only for a changed value. */
  function NextIntensity(r: Row, last: Option<nat>, x: real, tokens: seq<nat>): real
  {
    if InRange(r, tokens) && Some(TokenFor(r, tokens)) != last
    then Clamp(Fraction(TokenFor(r, tokens)), 0.0, 1.0)
    else x
  }

  function TickLastSent(rows: seq<Row>, lastSent: seq<Option<nat>>, tokens: seq<nat>): seq<Option<nat>>
    requires |lastSent| == |rows|
  {
    seq(|rows|, i requires 0 <= i < |rows| => NextLast(rows[i], lastSent[i], tokens))
  }

  function TickIntensity(rows: seq<Row>, lastSent: seq<Option<nat>>, intensity: seq<real>, tokens: seq<nat>): seq<real>
    requires |lastSent| == |rows| && |intensity| == |rows|
  {
    seq(|rows|, i requires 0 <= i < |rows| => NextIntensity(rows[i], lastSent[i], intensity[i], tokens))
  }

  /** The keys of `deviceCommands` after the first k rows, in insertion order:
      each device with an in-range row, once, in the order of its first one. */
  function Touched(rows: seq<Row>, tokens: seq<nat>, k: nat): seq<nat>
    requires k <= |rows|
  {
    if k == 0 then []
    else
      var prev := Touched(rows, tokens, k - 1);
      if InRange(rows[k - 1], tokens) && rows[k - 1].device !in prev then prev + [rows[k - 1].device] else prev
  }

  /** `Touched` lists exactly the devices with an in-range row, each once. */
  lemma {:induction false} TouchedSpec(rows: seq<Row>, tokens: seq<nat>, k: nat)
    requires k <= |rows|
    ensures forall d :: d in Touched(rows, tokens, k) <==>
      exists i | 0 <= i < k :: InRange(rows[i], tokens) && rows[i].device == d
    ensures forall a, b | 0 <= a < b < |Touched(rows, tokens, k)| ::
      Touched(rows, tokens, k)[a] != Touched(rows, tokens, k)[b]
  {
    if k > 0 {
      TouchedSpec(rows, tokens, k - 1);
    }
  }

  /** Row i writes slot m of device d's vector this tick. */
  predicate Drives(r: Row, tokens: seq<nat>, d: nat, m: nat)
  {
    InRange(r, tokens) && r.device == d && r.motor == m
  }

  /** The last of the first k rows that writes slot m of device d, if any. */
  function SlotRow(rows: seq<Row>, tokens: seq<nat>, d: nat, m: nat, k: nat): (r: Option<nat>)
    requires k <= |rows|
    ensures r.None? <==> forall i | 0 <= i < k :: !Drives(rows[i], tokens, d, m)
    ensures r.Some? ==>
      && r.value < k && Drives(rows[r.value], tokens, d, m)
      && forall j | r.value < j < k :: !Drives(rows[j], tokens, d, m)
  {
    if k == 0 then None
    else if Drives(rows[k - 1], tokens, d, m) then Some(k - 1)
    else SlotRow(rows, tokens, d, m, k - 1)
  }

  /** `deviceCommands.get(device)` after the first k rows: `Array(n).fill(0)`
      with `speeds[motor] = intensity` applied row by row. */
  function Vector(rows: seq<Row>, inten: seq<real>, tokens: seq<nat>, n: nat, d: nat, k: nat): seq<real>
    requires k <= |rows| == |inten|
  {
    seq(n, m requires 0 <= m < n =>
      match SlotRow(rows, tokens, d, m, k)
      case Some(i) => inten[i]
      case None => 0.0)
  }

  /** `deviceCommands` after the first k rows: an in-range row creates its
      device's `Array(n).fill(0)` if needed and sets its own slot. */
  function VectorsUpTo(rows: seq<Row>, inten: seq<real>, tokens: seq<nat>, devices: seq<Device>, k: nat): (vs: map<nat, seq<real>>)
    requires RowsFit(rows, devices) && |inten| == |rows| && k <= |rows|
    ensures forall d :: d in vs <==> d in Touched(rows, tokens, k)
    ensures forall d | d in vs :: d < |devices| && |vs[d]| == MotorCount(devices[d])
  {
    if k == 0 then map[]
    else
      var before := VectorsUpTo(rows, inten, tokens, devices, k - 1);
      var r := rows[k - 1];
      if InRange(r, tokens) then
        var speeds := if r.device in before then before[r.device] else Zeros(MotorCount(devices[r.device]));
        before[r.device := speeds[r.motor := inten[k - 1]]]
      else before
  }

  /** The vector for d differs from the cached one (or there is none). */
  predicate Differs(d: nat, v: seq<real>, cache: map<nat, seq<real>>)
  {
    d !in cache || cache[d] != v
  }

  /** The device calls of the send loop over `order`, judged against the cache
      as it was before the loop. */
  function PendingSends(order: seq<nat>, vecs: map<nat, seq<real>>, cache: map<nat, seq<real>>,
                        devices: seq<Device>): seq<Command>
    requires forall j | 0 <= j < |order| :: order[j] in vecs && order[j] < |devices|
    decreases |order|
  {
    if |order| == 0 then []
    else
      var d := order[|order| - 1];
      PendingSends(order[..|order| - 1], vecs, cache, devices)
        + (if Differs(d, vecs[d], cache) && devices[d].hasVibrate then [Vibrate(d, vecs[d])] else [])
  }

  /** Everything a tick with numbers `tokens` changes. */
  datatype Outcome = Outcome(lastSent: seq<Option<nat>>, intensity: seq<real>,
                             cache: map<nat, seq<real>>, sends: seq<Command>)

  function Tick(rows: seq<Row>, lastSent: seq<Option<nat>>, intensity: seq<real>,
                cache: map<nat, seq<real>>, devices: seq<Device>, tokens: seq<nat>): Outcome
    requires RowsFit(rows, devices) && |lastSent| == |rows| && |intensity| == |rows|
  {
    var inten := TickIntensity(rows, lastSent, intensity, tokens);
    var vecs := VectorsUpTo(rows, inten, tokens, devices, |rows|);
    Outcome(TickLastSent(rows, lastSent, tokens), inten, cache + vecs,
            PendingSends(Touched(rows, tokens, |rows|), vecs, cache, devices))
  }

  // ---------------------------------------------------------------------------
  // Properties of the tick

  /** A row with a number records it; a changed number sets the intensity to
      `clamp(v/100, 0, 1)`, which with 0..100 numbers is exactly v/100; rows
      without a number keep both; intensities stay in [0, 1]. */
  lemma TickRowSpec(rows: seq<Row>, lastSent: seq<Option<nat>>, intensity: seq<real>,
                    cache: map<nat, seq<real>>, devices: seq<Device>, tokens: seq<nat>, i: nat)
    requires RowsFit(rows, devices) && |lastSent| == |rows| && |intensity| == |rows|
    requires forall j | 0 <= j < |tokens| :: tokens[j] <= 100
    requires 0 <= i < |rows| && 0.0 <= intensity[i] <= 1.0
    ensures var out := Tick(rows, lastSent, intensity, cache, devices, tokens);
      && 0.0 <= out.intensity[i] <= 1.0
      && (InRange(rows[i], tokens) ==> out.lastSent[i] == Some(tokens[rows[i].mapping - 1]))
      && (InRange(rows[i], tokens) && lastSent[i] != Some(tokens[rows[i].mapping - 1]) ==>
            out.intensity[i] == Fraction(tokens[rows[i].mapping - 1]))
      && (!InRange(rows[i], tokens) || lastSent[i] == Some(tokens[rows[i].mapping - 1]) ==>
            out.intensity[i] == intensity[i])
      && (!InRange(rows[i], tokens) ==> out.lastSent[i] == lastSent[i])
  {
    if InRange(rows[i], tokens) {
      FractionRange(tokens[rows[i].mapping - 1]);
    }
  }

  /** Slot m of device d's vector holds the intensity of the last in-range row
      driving it, and 0 when no in-range row drives it; the vector has the
      device's motor count as length. */
  lemma VectorSpec(rows: seq<Row>, inten: seq<real>, tokens: seq<nat>, n: nat, d: nat, m: nat)
    requires |inten| == |rows| && m < n
    ensures |Vector(rows, inten, tokens, n, d, |rows|)| == n
    ensures (forall i | 0 <= i < |rows| :: !Drives(rows[i], tokens, d, m)) ==>
      Vector(rows, inten, tokens, n, d, |rows|)[m] == 0.0
    ensures forall i | 0 <= i < |rows| && Drives(rows[i], tokens, d, m) &&
        (forall j | i < j < |rows| :: !Drives(rows[j], tokens, d, m)) ::
      Vector(rows, inten, tokens, n, d, |rows|)[m] == inten[i]
  {
    var r := SlotRow(rows, tokens, d, m, |rows|);
    forall i | 0 <= i < |rows| && Drives(rows[i], tokens, d, m) &&
        (forall j | i < j < |rows| :: !Drives(rows[j], tokens, d, m))
      ensures Vector(rows, inten, tokens, n, d, |rows|)[m] == inten[i]
    {
      assert r.Some?;
      if r.value != i {
        assert r.value < i || i < r.value;
      }
    }
  }

  lemma {:induction false} PendingSendsSpec(order: seq<nat>, vecs: map<nat, seq<real>>,
                                            cache: map<nat, seq<real>>, devices: seq<Device>)
    requires forall j | 0 <= j < |order| :: order[j] in vecs && order[j] < |devices|
    ensures forall c :: c in PendingSends(order, vecs, cache, devices) <==>
      c.device in order && c.speeds == vecs[c.device] && Differs(c.device, vecs[c.device], cache)
      && devices[c.device].hasVibrate
    ensures (forall a, b | 0 <= a < b < |order| :: order[a] != order[b]) ==>
      forall a, b | 0 <= a < b < |PendingSends(order, vecs, cache, devices)| ::
        PendingSends(order, vecs, cache, devices)[a].device != PendingSends(order, vecs, cache, devices)[b].device
    decreases |order|
  {
    if |order| > 0 {
      var front := order[..|order| - 1];
      var d := order[|order| - 1];
      PendingSendsSpec(front, vecs, cache, devices);
      assert forall x :: x in order <==> x in front || x == d;
      var p := PendingSends(order, vecs, cache, devices);
      var pf := PendingSends(front, vecs, cache, devices);
      if (forall a, b | 0 <= a < b < |order| :: order[a] != order[b]) {
        assert d !in front;
        forall a, b | 0 <= a < b < |p| ensures p[a].device != p[b].device {
          if b >= |pf| {
            assert p[b] == Vibrate(d, vecs[d]);
            assert p[a] in pf;
          } else {
            assert p[a] == pf[a] && p[b] == pf[b];
          }
        }
      }
    }
  }

  /** Dedup against `lastDeviceCommands`: a device gets a vector this tick iff
      one of its motors has an in-range row; that vector is sent (once) iff no
      vector is cached for it or the cached one differs, and the device has a
      `vibrate` method; afterwards the cache holds it. Devices without a
      vector keep their cache entry. */
  lemma TickSendsSpec(rows: seq<Row>, lastSent: seq<Option<nat>>, intensity: seq<real>,
                      cache: map<nat, seq<real>>, devices: seq<Device>, tokens: seq<nat>)
    requires RowsFit(rows, devices) && |lastSent| == |rows| && |intensity| == |rows|
    ensures var out := Tick(rows, lastSent, intensity, cache, devices, tokens);
      var vecs := VectorsUpTo(rows, out.intensity, tokens, devices, |rows|);
      && (forall d :: d in vecs <==> exists i | 0 <= i < |rows| :: InRange(rows[i], tokens) && rows[i].device == d)
      && (forall d | d in vecs :: d in out.cache && out.cache[d] == vecs[d])
      && (forall d | d !in vecs :: (d in out.cache <==> d in cache) && (d in cache ==> out.cache[d] == cache[d]))
      && (forall c :: c in out.sends <==>
            c.device in vecs && c.speeds == vecs[c.device] && Differs(c.device, c.speeds, cache)
            && devices[c.device].hasVibrate)
      && (forall a, b | 0 <= a < b < |out.sends| :: out.sends[a].device != out.sends[b].device)
  {
    var out := Tick(rows, lastSent, intensity, cache, devices, tokens);
    var order := Touched(rows, tokens, |rows|);
    var vecs := VectorsUpTo(rows, out.intensity, tokens, devices, |rows|);
    TouchedSpec(rows, tokens, |rows|);
    PendingSendsSpec(order, vecs, cache, devices);
  }

  lemma {:induction false} NoPendingSends(order: seq<nat>, vecs: map<nat, seq<real>>,
                                          cache: map<nat, seq<real>>, devices: seq<Device>)
    requires forall j | 0 <= j < |order| :: order[j] in vecs && order[j] < |devices|
    requires forall j | 0 <= j < |order| :: !Differs(order[j], vecs[order[j]], cache)
    ensures PendingSends(order, vecs, cache, devices) == []
    decreases |order|
  {
    if |order| > 0 {
      NoPendingSends(order[..|order| - 1], vecs, cache, devices);
    }
  }

  /** Idempotence: a second tick on the same numbers changes nothing and sends
      nothing. */
  lemma TickIdempotent(rows: seq<Row>, lastSent: seq<Option<nat>>, intensity: seq<real>,
                       cache: map<nat, seq<real>>, devices: seq<Device>, tokens: seq<nat>)
    requires RowsFit(rows, devices) && |lastSent| == |rows| && |intensity| == |rows|
    ensures var first := Tick(rows, lastSent, intensity, cache, devices, tokens);
      var second := Tick(rows, first.lastSent, first.intensity, first.cache, devices, tokens);
      second == Outcome(first.lastSent, first.intensity, first.cache, [])
  {
    var first := Tick(rows, lastSent, intensity, cache, devices, tokens);
    var second := Tick(rows, first.lastSent, first.intensity, first.cache, devices, tokens);
    assert second.lastSent == first.lastSent;
    assert second.intensity == first.intensity;
    var vecs := VectorsUpTo(rows, first.intensity, tokens, devices, |rows|);
    var order := Touched(rows, tokens, |rows|);
    assert first.cache == cache + vecs;
    NoPendingSends(order, vecs, first.cache, devices);
    assert second.cache == first.cache + vecs;
    assert second.cache == first.cache;
  }

  /** Right after `startMapping` (every `lastSentValues[i]` null, empty cache)
      every in-range number counts as new, and every device with an in-range
      row receives its vector. */
  lemma FirstTickAfterStart(rows: seq<Row>, devices: seq<Device>, tokens: seq<nat>)
    requires RowsFit(rows, devices)
    ensures var out := Tick(rows, Nulls(|rows|), Zeros(|rows|), map[], devices, tokens);
      && (forall i | 0 <= i < |rows| && InRange(rows[i], tokens) ::
            out.intensity[i] == Clamp(Fraction(tokens[rows[i].mapping - 1]), 0.0, 1.0))
      && (forall i | 0 <= i < |rows| && InRange(rows[i], tokens) && devices[rows[i].device].hasVibrate ::
            exists c | c in out.sends :: c.device == rows[i].device)
  {
    var none: seq<Option<nat>> := Nulls(|rows|);
    var zero := Zeros(|rows|);
    var out := Tick(rows, none, zero, map[], devices, tokens);
    forall i | 0 <= i < |rows| && InRange(rows[i], tokens)
      ensures out.intensity[i] == Clamp(Fraction(tokens[rows[i].mapping - 1]), 0.0, 1.0)
    {
      assert out.intensity[i] == NextIntensity(rows[i], none[i], zero[i], tokens);
    }
    TickSendsSpec(rows, none, zero, map[], devices, tokens);
    var vecs := VectorsUpTo(rows, out.intensity, tokens, devices, |rows|);
    forall i | 0 <= i < |rows| && InRange(rows[i], tokens) && devices[rows[i].device].hasVibrate
      ensures exists c | c in out.sends :: c.device == rows[i].device
    {
      var d := rows[i].device;
      assert d in vecs;
      assert Vibrate(d, vecs[d]) in out.sends;
    }
  }

  // ---------------------------------------------------------------------------
  // Stop

  /** `stopMapping`: one all-zero vector of the device's motor count per
      mapping row (so a device appears once per row mapped to it). */
  function StopSends(rows: seq<Row>, devices: seq<Device>): seq<Command>
    requires RowsFit(rows, devices)
    decreases |rows|
  {
    if |rows| == 0 then []
    else
      var r := rows[|rows| - 1];
      StopSends(rows[..|rows| - 1], devices)
        + (if devices[r.device].hasVibrate then [Vibrate(r.device, Zeros(MotorCount(devices[r.device])))] else [])
  }

  /** Every stop command is all zeros with the device's motor count, and there
      is exactly one per row whose device has a `vibrate` method, in row order. */
  lemma {:induction false} StopSendsSpec(rows: seq<Row>, devices: seq<Device>)
    requires RowsFit(rows, devices)
    ensures forall c | c in StopSends(rows, devices) ::
      c.device < |devices| && c.speeds == Zeros(MotorCount(devices[c.device]))
    ensures |StopSends(rows, devices)| == |VibratingRows(rows, devices)|
    ensures forall k | 0 <= k < |StopSends(rows, devices)| ::
      StopSends(rows, devices)[k].device == VibratingRows(rows, devices)[k]
    decreases |rows|
  {
    if |rows| > 0 {
      StopSendsSpec(rows[..|rows| - 1], devices);
    }
  }

  /** The devices of the rows whose device has a `vibrate` method, in row order. */
  function VibratingRows(rows: seq<Row>, devices: seq<Device>): seq<nat>
    requires RowsFit(rows, devices)
    decreases |rows|
  {
    if |rows| == 0 then []
    else
      var r := rows[|rows| - 1];
      VibratingRows(rows[..|rows| - 1], devices) + (if devices[r.device].hasVibrate then [r.device] else [])
  }

  // ---------------------------------------------------------------------------
  // The row loop of checkMessages

  /** The per-row loop of `checkMessages` over `mappingConfig`: record each
      in-range number, recompute the intensity of a changed one, and write the
      row's intensity into its device's vector, creating the vector (and its
      key, in insertion order) on first use. */
  method RowPass(rows: seq<Row>, devices: seq<Device>, lastSent: seq<Option<nat>>, intensity: seq<real>,
                 tokens: seq<nat>)
    returns (last: seq<Option<nat>>, level: seq<real>, order: seq<nat>, vecs: map<nat, seq<real>>)
    requires RowsFit(rows, devices) && |lastSent| == |rows| && |intensity| == |rows|
    ensures last == TickLastSent(rows, lastSent, tokens)
    ensures level == TickIntensity(rows, lastSent, intensity, tokens)
    ensures order == Touched(rows, tokens, |rows|)
    ensures vecs == VectorsUpTo(rows, level, tokens, devices, |rows|)
  {
    ghost var inten := TickIntensity(rows, lastSent, intensity, tokens);
    last, level := lastSent, intensity;
    order := [];
    vecs := map[];
    var i := 0;
    while i < |rows|
      invariant 0 <= i <= |rows|
      invariant |last| == |rows| && |level| == |rows|
      invariant forall j | 0 <= j < i :: last[j] == NextLast(rows[j], lastSent[j], tokens)
      invariant forall j | i <= j < |rows| :: last[j] == lastSent[j]
      invariant forall j | 0 <= j < i :: level[j] == inten[j]
      invariant forall j | i <= j < |rows| :: level[j] == intensity[j]
      invariant order == Touched(rows, tokens, i)
      invariant vecs == VectorsUpTo(rows, inten, tokens, devices, i)
    {
      var li, vi;
      li, vi, order, vecs := ApplyRow(rows, devices, tokens, inten, i, last[i], level[i], order, vecs);
      last, level := last[i := li], level[i := vi];
      i := i + 1;
    }
    assert last == TickLastSent(rows, lastSent, tokens);
    assert level == inten;
  }

  /** One pass of the row loop: row i records its number, recomputes a changed
      intensity, and writes that intensity into its device's vector. */
  method ApplyRow(rows: seq<Row>, devices: seq<Device>, tokens: seq<nat>, ghost inten: seq<real>, i: nat,
                  last: Option<nat>, level: real, order: seq<nat>, vecs: map<nat, seq<real>>)
    returns (last': Option<nat>, level': real, order': seq<nat>, vecs': map<nat, seq<real>>)
    requires RowsFit(rows, devices) && |inten| == |rows| && i < |rows|
    requires inten[i] == NextIntensity(rows[i], last, level, tokens)
    requires order == Touched(rows, tokens, i) && vecs == VectorsUpTo(rows, inten, tokens, devices, i)
    ensures last' == NextLast(rows[i], last, tokens) && level' == inten[i]
    ensures order' == Touched(rows, tokens, i + 1) && vecs' == VectorsUpTo(rows, inten, tokens, devices, i + 1)
  {
    var r := rows[i];
    last', level', order', vecs' := last, level, order, vecs;
    if r.mapping - 1 < |tokens| {
      var v := tokens[r.mapping - 1];
      if Some(v) != last {
        last' := Some(v);
        level' := Clamp(Fraction(v), 0.0, 1.0);
      }
      var speeds := if r.device in vecs then vecs[r.device] else Zeros(MotorCount(devices[r.device]));
      if r.device !in vecs {
        order' := order + [r.device];
      }
      vecs' := vecs[r.device := speeds[r.motor := level']];
      VectorsUpToPut(rows, inten, tokens, devices, i, vecs);
    } else {
      VectorsUpToSkip(rows, inten, tokens, devices, i);
    }
  }

  /** An in-range row k creates its device's vector if needed and writes its
      slot. */
  lemma VectorsUpToPut(rows: seq<Row>, inten: seq<real>, tokens: seq<nat>, devices: seq<Device>, k: nat,
                       before: map<nat, seq<real>>)
    requires RowsFit(rows, devices) && |inten| == |rows| && k < |rows|
    requires before == VectorsUpTo(rows, inten, tokens, devices, k)
    requires InRange(rows[k], tokens)
    ensures var r := rows[k];
      var speeds := if r.device in before then before[r.device] else Zeros(MotorCount(devices[r.device]));
      before[r.device := speeds[r.motor := inten[k]]] == VectorsUpTo(rows, inten, tokens, devices, k + 1)
  {
  }

  /** A row without a number leaves the vectors alone. */
  lemma VectorsUpToSkip(rows: seq<Row>, inten: seq<real>, tokens: seq<nat>, devices: seq<Device>, k: nat)
    requires RowsFit(rows, devices) && |inten| == |rows| && k < |rows|
    requires !InRange(rows[k], tokens)
    ensures VectorsUpTo(rows, inten, tokens, devices, k + 1) == VectorsUpTo(rows, inten, tokens, devices, k)
  {
  }

  // ---------------------------------------------------------------------------
  // arraysEqual

  /** `arraysEqual(a, b)`: equal lengths and equal elements. */
  method ArraysEqual(a: seq<real>, b: seq<real>) returns (eq: bool)
    ensures eq <==> |a| == |b| && forall i | 0 <= i < |a| :: a[i] == b[i]
    ensures eq <==> a == b
  {
    if |a| != |b| {
      return false;
    }
    var i := 0;
    while i < |a|
      invariant 0 <= i <= |a|
      invariant forall j | 0 <= j < i :: a[j] == b[j]
    {
      if a[i] != b[i] {
        return false;
      }
      i := i + 1;
    }
    return true;
  }

  // ---------------------------------------------------------------------------
  // The engine state and its operations

  class Engine {
    /** `client.devices` */
    const devices: seq<Device>
    var isConnected: bool
    var mappingStarted: bool
    /** `mappingConfig` without the intensities, which live in `intensity` */
    var rows: seq<Row>
    var intensity: seq<real>
    var lastSentValues: seq<Option<nat>>
    /** `lastDeviceCommands`, keyed by device position */
    var lastDeviceCommands: map<nat, seq<real>>
    /** every device call made so far */
    var sent: seq<Command>

    ghost predicate Valid()
      reads this
    {
      && |lastSentValues| == |rows| && |intensity| == |rows|
      && RowsFit(rows, devices)
      && forall i | 0 <= i < |rows| :: 0.0 <= intensity[i] <= 1.0
    }

    constructor (devices: seq<Device>, connected: bool)
      ensures Valid()
      ensures this.devices == devices && isConnected == connected && !mappingStarted
      ensures rows == [] && lastDeviceCommands == map[] && sent == []
    {
      this.devices := devices;
      isConnected := connected;
      mappingStarted := false;
      rows := [];
      intensity := [];
      lastSentValues := [];
      lastDeviceCommands := map[];
      sent := [];
    }

    /** The outcome of `checkConnectionStatus` (`isConnected = client.connected`). */
    method SetConnected(connected: bool)
      modifies this`isConnected
      ensures isConnected == connected
    {
      isConnected := connected;
    }

    /** `startMapping`: rebuild the rows from the settings, intensity 0,
        every `lastSentValues[i]` null and an empty cache. */
    method StartMapping(settings: seq<Row>)
      requires RowsFit(settings, devices)
      modifies this
      ensures Valid()
      ensures rows == settings && mappingStarted && isConnected == old(isConnected)
      ensures intensity == Zeros(|settings|)
      ensures lastSentValues == Nulls(|settings|)
      ensures lastDeviceCommands == map[] && sent == old(sent)
    {
      rows := settings;
      intensity := Zeros(|settings|);
      lastSentValues := Nulls(|settings|);
      lastDeviceCommands := map[];
      mappingStarted := true;
    }

    /** Moving an oscillation slider while mapping runs only marks the mapping
        as stopped ("Restart"); no device is told anything. */
    method SliderMoved()
      modifies this`mappingStarted
      ensures !mappingStarted
    {
      mappingStarted := false;
    }

    /** `sendVibrationCommandToDevice(device, speeds)`; a device without a
        `vibrate` method is skipped. */
    method SendVibration(d: nat, speeds: seq<real>)
      requires d < |devices|
      modifies this`sent
      ensures sent == old(sent) + if devices[d].hasVibrate then [Vibrate(d, speeds)] else []
    {
      if devices[d].hasVibrate {
        sent := sent + [Vibrate(d, speeds)];
      }
    }

    /** `stopMapping`: stop the tick, then one zero vector per mapping row,
        without reading or updating the cache. */
    method StopMapping()
      requires Valid()
      modifies this
      ensures Valid() && !mappingStarted
      ensures rows == old(rows) && intensity == old(intensity) && lastSentValues == old(lastSentValues)
      ensures lastDeviceCommands == old(lastDeviceCommands) && isConnected == old(isConnected)
      ensures sent == old(sent) + StopSends(rows, devices)
    {
      mappingStarted := false;
      var i := 0;
      while i < |rows|
        invariant 0 <= i <= |rows|
        invariant rows == old(rows) && intensity == old(intensity) && lastSentValues == old(lastSentValues)
        invariant lastDeviceCommands == old(lastDeviceCommands) && isConnected == old(isConnected)
        invariant !mappingStarted
        invariant sent == old(sent) + StopSends(rows[..i], devices)
      {
        assert rows[..i + 1][..i] == rows[..i];
        SendVibration(rows[i].device, Zeros(MotorCount(devices[rows[i].device])));
        i := i + 1;
      }
      assert rows[..i] == rows;
    }

    /** `checkMessages`: nothing happens unless connected and started, a
        message contains a digit and a number in 0..100 remains; otherwise the
        rows, the cache and the log follow `Tick`. */
    method CheckMessages(msgs: seq<string>, vPrefix: bool)
      requires Valid()
      modifies this`lastSentValues, this`intensity, this`lastDeviceCommands, this`sent
      ensures Valid()
      ensures var text := LatestWithDigit(msgs);
        if !old(isConnected) || !old(mappingStarted) || text.None? || |ChatNumbers(text.value, vPrefix)| == 0 then
          && lastSentValues == old(lastSentValues) && intensity == old(intensity)
          && lastDeviceCommands == old(lastDeviceCommands) && sent == old(sent)
        else
          var out := Tick(rows, old(lastSentValues), old(intensity), old(lastDeviceCommands), devices,
                          ChatNumbers(text.value, vPrefix));
          && lastSentValues == out.lastSent && intensity == out.intensity
          && lastDeviceCommands == out.cache && sent == old(sent) + out.sends
    {
      if !isConnected || !mappingStarted {
        return;
      }
      var text := FindLatestWithDigit(msgs);
      if text.None? {
        return;
      }
      var tokens := FilterRange(Tokens(text.value, vPrefix));
      if |tokens| == 0 {
        return;
      }
      FilterRangeSpec(Tokens(text.value, vPrefix));
      RunTick(tokens);
    }

    /** One tick on numbers that are all in 0..100: the row loop, then the
        send loop. */
    method RunTick(tokens: seq<nat>)
      requires Valid() && forall j | 0 <= j < |tokens| :: tokens[j] <= 100
      modifies this`lastSentValues, this`intensity, this`lastDeviceCommands, this`sent
      ensures Valid()
      ensures var out := Tick(rows, old(lastSentValues), old(intensity), old(lastDeviceCommands), devices, tokens);
        && lastSentValues == out.lastSent && intensity == out.intensity
        && lastDeviceCommands == out.cache && sent == old(sent) + out.sends
    {
      ghost var cache0 := lastDeviceCommands;
      var order, vecs := ApplyNumbers(tokens);
      TouchedSpec(rows, tokens, |rows|);
      forall j | 0 <= j < |order| ensures order[j] in vecs && order[j] < |devices| {
        assert order[j] in order;
      }
      SendChanged(order, vecs);
      CacheAfterMerge(cache0, order, vecs);
    }

    /** The per-row loop of `checkMessages`: update the rows and build
        `deviceCommands` (its keys in insertion order, and the map). */
    method ApplyNumbers(tokens: seq<nat>) returns (order: seq<nat>, vecs: map<nat, seq<real>>)
      requires Valid() && forall j | 0 <= j < |tokens| :: tokens[j] <= 100
      modifies this`lastSentValues, this`intensity
      ensures Valid()
      ensures lastSentValues == TickLastSent(rows, old(lastSentValues), tokens)
      ensures intensity == TickIntensity(rows, old(lastSentValues), old(intensity), tokens)
      ensures order == Touched(rows, tokens, |rows|)
      ensures vecs == VectorsUpTo(rows, intensity, tokens, devices, |rows|)
    {
      var last, level;
      last, level, order, vecs := RowPass(rows, devices, lastSentValues, intensity, tokens);
      forall i | 0 <= i < |rows| ensures 0.0 <= level[i] <= 1.0 {
        assert level[i] == NextIntensity(rows[i], lastSentValues[i], intensity[i], tokens);
      }
      lastSentValues, intensity := last, level;
    }

    /** The send loop of `checkMessages`: each vector that differs from the
        cache (or has none there) is sent and cached. */
    method SendChanged(order: seq<nat>, vecs: map<nat, seq<real>>)
      requires forall j | 0 <= j < |order| :: order[j] in vecs && order[j] < |devices|
      requires forall a, b | 0 <= a < b < |order| :: order[a] != order[b]
      modifies this`lastDeviceCommands, this`sent
      ensures lastDeviceCommands == CacheAfter(old(lastDeviceCommands), order, vecs)
      ensures sent == old(sent) + PendingSends(order, vecs, old(lastDeviceCommands), devices)
    {
      ghost var cache0, sent0 := lastDeviceCommands, sent;
      var j := 0;
      while j < |order|
        invariant 0 <= j <= |order|
        invariant lastDeviceCommands == CacheAfter(cache0, order[..j], vecs)
        invariant sent == sent0 + PendingSends(order[..j], vecs, cache0, devices)
      {
        var d := order[j];
        SendStep(cache0, order, vecs, devices, j);
        var speeds := vecs[d];
        var send := true;
        if d in lastDeviceCommands {
          var eq := ArraysEqual(lastDeviceCommands[d], speeds);
          if eq {
            send := false;
          }
        }
        assert send == Differs(d, speeds, cache0);
        ghost var p := PendingSends(order[..j], vecs, cache0, devices);
        ghost var extra: seq<Command> := if send && devices[d].hasVibrate then [Vibrate(d, speeds)] else [];
        if send {
          SendVibration(d, speeds);
          lastDeviceCommands := lastDeviceCommands[d := speeds];
        } else {
          assert lastDeviceCommands == lastDeviceCommands[d := speeds];
        }
        assert sent == (sent0 + p) + extra;
        AppendAssoc(sent0, p, extra);
        j := j + 1;
      }
      assert order[..j] == order;
    }
  }

  /** The send loop's view of device `order[j]`: the cache it sees holds the
      pre-loop entry of that device, and handling it extends the cache and
      the calls by that device alone. */
  lemma SendStep(cache: map<nat, seq<real>>, order: seq<nat>, vecs: map<nat, seq<real>>, devices: seq<Device>, j: nat)
    requires forall k | 0 <= k < |order| :: order[k] in vecs && order[k] < |devices|
    requires forall a, b | 0 <= a < b < |order| :: order[a] != order[b]
    requires j < |order|
    ensures var d := order[j];
      var now := CacheAfter(cache, order[..j], vecs);
      && (d in now <==> d in cache) && (d in cache ==> now[d] == cache[d])
      && CacheAfter(cache, order[..j + 1], vecs) == now[d := vecs[d]]
      && PendingSends(order[..j + 1], vecs, cache, devices) ==
           PendingSends(order[..j], vecs, cache, devices)
             + if Differs(d, vecs[d], cache) && devices[d].hasVibrate then [Vibrate(d, vecs[d])] else []
  {
    assert order[..j + 1][..j] == order[..j];
    CacheAfterSpec(cache, order[..j], vecs);
    assert order[j] !in order[..j];
  }

  /** The cache after the send loop has handled the devices of `order`. */
  function CacheAfter(cache: map<nat, seq<real>>, order: seq<nat>, vecs: map<nat, seq<real>>): map<nat, seq<real>>
    requires forall j | 0 <= j < |order| :: order[j] in vecs
    decreases |order|
  {
    if |order| == 0 then cache
    else CacheAfter(cache, order[..|order| - 1], vecs)[order[|order| - 1] := vecs[order[|order| - 1]]]
  }

  lemma {:induction false} CacheAfterSpec(cache: map<nat, seq<real>>, order: seq<nat>, vecs: map<nat, seq<real>>)
    requires forall j | 0 <= j < |order| :: order[j] in vecs
    ensures forall x :: x in CacheAfter(cache, order, vecs) <==> x in cache || x in order
    ensures forall x | x in CacheAfter(cache, order, vecs) ::
      CacheAfter(cache, order, vecs)[x] == if x in order then vecs[x] else cache[x]
    decreases |order|
  {
    if |order| > 0 {
      var front := order[..|order| - 1];
      CacheAfterSpec(cache, front, vecs);
      assert forall x :: x in order <==> x in front || x == order[|order| - 1];
    }
  }

  lemma CacheAfterMerge(cache: map<nat, seq<real>>, order: seq<nat>, vecs: map<nat, seq<real>>)
    requires forall j | 0 <= j < |order| :: order[j] in vecs
    requires forall d :: d in vecs <==> d in order
    ensures CacheAfter(cache, order, vecs) == cache + vecs
  {
    CacheAfterSpec(cache, order, vecs);
  }

  /** A device none of the first k rows touches has an all-zero vector. */
  lemma UntouchedVector(rows: seq<Row>, inten: seq<real>, tokens: seq<nat>, n: nat, d: nat, k: nat)
    requires k <= |rows| == |inten|
    requires d !in Touched(rows, tokens, k)
    ensures Vector(rows, inten, tokens, n, d, k) == Zeros(n)
  {
    TouchedSpec(rows, tokens, k);
    forall m | 0 <= m < n ensures SlotRow(rows, tokens, d, m, k).None? { }
  }

  /** Row k either writes one slot of one vector or leaves all vectors alone. */
  lemma VectorStep(rows: seq<Row>, inten: seq<real>, tokens: seq<nat>, n: nat, d: nat, k: nat)
    requires k < |rows| == |inten|
    ensures Vector(rows, inten, tokens, n, d, k + 1) ==
      if InRange(rows[k], tokens) && rows[k].device == d && rows[k].motor < n
      then Vector(rows, inten, tokens, n, d, k)[rows[k].motor := inten[k]]
      else Vector(rows, inten, tokens, n, d, k)
  {
  }

  /** The vectors built row by row are the per-slot reference vectors: a
      vector exists exactly for the devices with an in-range row, and its slot
      m holds the intensity of the last in-range row driving motor m (0 if
      none). */
  ghost predicate VectorsAgree(rows: seq<Row>, inten: seq<real>, tokens: seq<nat>, devices: seq<Device>, k: nat)
    requires RowsFit(rows, devices) && |inten| == |rows| && k <= |rows|
  {
    forall d | d in VectorsUpTo(rows, inten, tokens, devices, k) ::
      VectorsUpTo(rows, inten, tokens, devices, k)[d] == Vector(rows, inten, tokens, MotorCount(devices[d]), d, k)
  }

  lemma {:induction false} VectorsUpToSpec(rows: seq<Row>, inten: seq<real>, tokens: seq<nat>, devices: seq<Device>, k: nat)
    requires RowsFit(rows, devices) && |inten| == |rows| && k <= |rows|
    ensures VectorsAgree(rows, inten, tokens, devices, k)
  {
    if k > 0 {
      var j := k - 1;
      VectorsUpToSpec(rows, inten, tokens, devices, j);
      AgreeStep(rows, inten, tokens, devices, j);
    }
  }

  /** Row k keeps every built vector equal to its reference vector. */
  lemma AgreeStep(rows: seq<Row>, inten: seq<real>, tokens: seq<nat>, devices: seq<Device>, k: nat)
    requires RowsFit(rows, devices) && |inten| == |rows| && k < |rows|
    requires VectorsAgree(rows, inten, tokens, devices, k)
    ensures VectorsAgree(rows, inten, tokens, devices, k + 1)
  {
    forall d | d in VectorsUpTo(rows, inten, tokens, devices, k + 1)
      ensures VectorsUpTo(rows, inten, tokens, devices, k + 1)[d] == Vector(rows, inten, tokens, MotorCount(devices[d]), d, k + 1)
    {
      VectorsUpToAt(rows, inten, tokens, devices, k, d);
    }
  }

  /** The step for one device: row k either leaves its vector alone or sets
      one of its slots. */
  lemma VectorsUpToAt(rows: seq<Row>, inten: seq<real>, tokens: seq<nat>, devices: seq<Device>, k: nat, d: nat)
    requires RowsFit(rows, devices) && |inten| == |rows| && k < |rows|
    requires VectorsAgree(rows, inten, tokens, devices, k)
    requires d in VectorsUpTo(rows, inten, tokens, devices, k + 1)
    ensures VectorsUpTo(rows, inten, tokens, devices, k + 1)[d] == Vector(rows, inten, tokens, MotorCount(devices[d]), d, k + 1)
  {
    var before := VectorsUpTo(rows, inten, tokens, devices, k);
    var n := MotorCount(devices[d]);
    var r := rows[k];
    VectorStep(rows, inten, tokens, n, d, k);
    if InRange(r, tokens) {
      VectorsUpToPut(rows, inten, tokens, devices, k, before);
      if d == r.device && d !in before {
        UntouchedVector(rows, inten, tokens, n, d, k);
      }
    } else {
      VectorsUpToSkip(rows, inten, tokens, devices, k);
    }
  }

}
