/** Revision 1.1 of the userscript (theaipeeps-buttplug.js): mapping row i
    drives `client.devices[i]` with one scalar intensity. A tick reads every
    1-3 digit number of the latest chat message with a digit (no range
    filter); a row whose number changed sends it at once and restarts its
    oscillation base, a row whose number stayed starts an oscillation timer
    when its slider is above 0 and stops it otherwise. */
module LegacySync {
  import opened Common
  import opened Tokenizer

  /** An entry of `client.devices`: its name and whether it has a `vibrate` method. */
  datatype Device = Device(name: string, hasVibrate: bool)

  /** A mapping row: the 1-based number position it follows and its
      oscillation percentage (slider 0..50). */
  datatype Row = Row(mapping: nat, osc: nat)

  /** One call `client.devices[device].vibrate(level)`. */
  datatype Command = Vibrate(device: nat, level: real)

  // ---------------------------------------------------------------------------
  // Row enumeration (populateMappingSettings)

  /** The settings panel: its rows (preselected number, slider at 0) and the
      number of choices each drop-down offers. */
  datatype Panel = Panel(rows: seq<Row>, options: nat)

  /** `populateMappingSettings`: nothing without a connection or devices;
      otherwise one row per device, for at most four devices, row i
      preselecting `Number i+1`, each drop-down offering one number per row. */
  function PopulateMappingSettings(connected: bool, devices: seq<Device>): Option<Panel>
  {
    if !connected || |devices| == 0 then None
    else
      var n := if |devices| > 4 then 4 else |devices|;
      Some(Panel(seq(n, i requires 0 <= i => Row(i + 1, 0)), n))
  }

  lemma PopulateMappingSettingsSpec(connected: bool, devices: seq<Device>)
    ensures PopulateMappingSettings(connected, devices).None? <==> !connected || |devices| == 0
    ensures PopulateMappingSettings(connected, devices).Some? ==>
      var p := PopulateMappingSettings(connected, devices).value;
      && |p.rows| == p.options && 1 <= p.options <= 4 && p.options <= |devices|
      && (|devices| <= 4 ==> p.options == |devices|)
      && forall k | 0 <= k < |p.rows| :: p.rows[k] == Row(k + 1, 0) && 1 <= p.rows[k].mapping <= p.options
  {
  }

  // ---------------------------------------------------------------------------
  // Device calls

  /** `sendVibrationCommandToDevice(client.devices[i], percent)`: nothing
      for a missing device or one without `vibrate`, otherwise
      `vibrate(clamp(percent / 100, 0, 1))`. */
  function SendTo(devices: seq<Device>, i: nat, percent: real): seq<Command>
  {
    if i < |devices| && devices[i].hasVibrate then [Vibrate(i, Clamp(percent / 100.0, 0.0, 1.0))] else []
  }

  /** Every command carries a level in [0, 1]; a percentage in 0..100 is sent
      as itself / 100, and one outside saturates at 0 or 1. */
  lemma SendToSpec(devices: seq<Device>, i: nat, percent: real)
    ensures |SendTo(devices, i, percent)| <= 1
    ensures |SendTo(devices, i, percent)| == 1 <==> i < |devices| && devices[i].hasVibrate
    ensures forall c | c in SendTo(devices, i, percent) :: c.device == i && 0.0 <= c.level <= 1.0
    ensures forall c | c in SendTo(devices, i, percent) :: 0.0 <= percent <= 100.0 ==> c.level == percent / 100.0
    ensures forall c | c in SendTo(devices, i, percent) :: percent >= 100.0 ==> c.level == 1.0
    ensures forall c | c in SendTo(devices, i, percent) :: percent <= 0.0 ==> c.level == 0.0
  {
  }

  // ---------------------------------------------------------------------------
  // The tick (checkMessages) as functions of the state before it

  predicate InRange(r: Row, tokens: seq<nat>)
  {
    1 <= r.mapping <= |tokens|
  }

  function TokenFor(r: Row, tokens: seq<nat>): nat
    requires InRange(r, tokens)
  {
    tokens[r.mapping - 1]
  }

  /** The row's number differs from `lastSentValues[i]`. */
  predicate IsNew(r: Row, last: Option<nat>, tokens: seq<nat>)
  {
    InRange(r, tokens) && Some(TokenFor(r, tokens)) != last
  }

  function NextLast(r: Row, last: Option<nat>, tokens: seq<nat>): Option<nat>
  {
    if InRange(r, tokens) then Some(TokenFor(r, tokens)) else last
  }

  /** Whether `oscillationTimers[i]` runs after the tick: a new value stops
      it, an unchanged one runs it exactly when the slider is above 0. */
  function NextActive(r: Row, last: Option<nat>, active: bool, tokens: seq<nat>): bool
  {
    if !InRange(r, tokens) then active
    else if IsNew(r, last, tokens) then false
    else r.osc > 0
  }

  function NextBase(r: Row, last: Option<nat>, base: Option<nat>, tokens: seq<nat>): Option<nat>
  {
    if IsNew(r, last, tokens) then Some(TokenFor(r, tokens)) else base
  }

  /** `oscillationStartTime[i]`: reset by a new value and by a timer that starts. */
  function NextStart(r: Row, last: Option<nat>, active: bool, start: Option<int>, tokens: seq<nat>, now: int): Option<int>
  {
    if IsNew(r, last, tokens) then Some(now)
    else if InRange(r, tokens) && r.osc > 0 && !active then Some(now)
    else start
  }

  /** The device calls of the first k rows: a row with a new number sends it. */
  function TickSends(devices: seq<Device>, rows: seq<Row>, last: seq<Option<nat>>, tokens: seq<nat>, k: nat): seq<Command>
    requires k <= |rows| <= |last|
  {
    if k == 0 then []
    else
      TickSends(devices, rows, last, tokens, k - 1)
        + if IsNew(rows[k - 1], last[k - 1], tokens) then SendTo(devices, k - 1, TokenFor(rows[k - 1], tokens) as real) else []
  }

  /** The per-row state of the engine: `lastSentValues[i]`, whether
      `oscillationTimers[i]` is set, `oscillationBases[i]`,
      `oscillationStartTime[i]`. */
  datatype Outcome = Outcome(last: seq<Option<nat>>, active: seq<bool>, base: seq<Option<nat>>,
                             start: seq<Option<int>>, sends: seq<Command>)

  function Tick(devices: seq<Device>, rows: seq<Row>, last: seq<Option<nat>>, active: seq<bool>,
                base: seq<Option<nat>>, start: seq<Option<int>>, tokens: seq<nat>, now: int): Outcome
    requires |last| == |rows| && |active| == |rows| && |base| == |rows| && |start| == |rows|
  {
    Outcome(
      seq(|rows|, i requires 0 <= i < |rows| => NextLast(rows[i], last[i], tokens)),
      seq(|rows|, i requires 0 <= i < |rows| => NextActive(rows[i], last[i], active[i], tokens)),
      seq(|rows|, i requires 0 <= i < |rows| => NextBase(rows[i], last[i], base[i], tokens)),
      seq(|rows|, i requires 0 <= i < |rows| => NextStart(rows[i], last[i], active[i], start[i], tokens, now)),
      TickSends(devices, rows, last, tokens, |rows|))
  }

  /** The per-row state part way through the row loop: the first i rows hold
      their values after the tick, the others their values before it. */
  predicate RowsTicked(rows: seq<Row>, last0: seq<Option<nat>>, active0: seq<bool>, base0: seq<Option<nat>>,
                       start0: seq<Option<int>>, tokens: seq<nat>, now: int, i: nat,
                       last: seq<Option<nat>>, active: seq<bool>, base: seq<Option<nat>>, start: seq<Option<int>>)
    requires |last0| == |rows| && |active0| == |rows| && |base0| == |rows| && |start0| == |rows|
    requires |last| == |rows| && |active| == |rows| && |base| == |rows| && |start| == |rows|
  {
    forall j | 0 <= j < |rows| ::
      if j < i then
        && last[j] == NextLast(rows[j], last0[j], tokens)
        && active[j] == NextActive(rows[j], last0[j], active0[j], tokens)
        && base[j] == NextBase(rows[j], last0[j], base0[j], tokens)
        && start[j] == NextStart(rows[j], last0[j], active0[j], start0[j], tokens, now)
      else
        last[j] == last0[j] && active[j] == active0[j] && base[j] == base0[j] && start[j] == start0[j]
  }

  lemma RowsTickedStep(rows: seq<Row>, last0: seq<Option<nat>>, active0: seq<bool>, base0: seq<Option<nat>>,
                       start0: seq<Option<int>>, tokens: seq<nat>, now: int, i: nat,
                       last: seq<Option<nat>>, active: seq<bool>, base: seq<Option<nat>>, start: seq<Option<int>>,
                       l: Option<nat>, a: bool, b: Option<nat>, s: Option<int>)
    requires |last0| == |rows| && |active0| == |rows| && |base0| == |rows| && |start0| == |rows|
    requires |last| == |rows| && |active| == |rows| && |base| == |rows| && |start| == |rows|
    requires i < |rows| && RowsTicked(rows, last0, active0, base0, start0, tokens, now, i, last, active, base, start)
    requires l == NextLast(rows[i], last[i], tokens) && a == NextActive(rows[i], last[i], active[i], tokens)
    requires b == NextBase(rows[i], last[i], base[i], tokens) && s == NextStart(rows[i], last[i], active[i], start[i], tokens, now)
    ensures last[i] == last0[i]
    ensures RowsTicked(rows, last0, active0, base0, start0, tokens, now, i + 1,
                       last[i := l], active[i := a], base[i := b], start[i := s])
  {
    assert last[i] == last0[i] && active[i] == active0[i] && base[i] == base0[i] && start[i] == start0[i];
  }

  lemma RowsTickedDone(devices: seq<Device>, rows: seq<Row>, last0: seq<Option<nat>>, active0: seq<bool>, base0: seq<Option<nat>>,
                       start0: seq<Option<int>>, tokens: seq<nat>, now: int,
                       last: seq<Option<nat>>, active: seq<bool>, base: seq<Option<nat>>, start: seq<Option<int>>)
    requires |last0| == |rows| && |active0| == |rows| && |base0| == |rows| && |start0| == |rows|
    requires |last| == |rows| && |active| == |rows| && |base| == |rows| && |start| == |rows|
    requires RowsTicked(rows, last0, active0, base0, start0, tokens, now, |rows|, last, active, base, start)
    ensures var out := Tick(devices, rows, last0, active0, base0, start0, tokens, now);
      last == out.last && active == out.active && base == out.base && start == out.start
  {
  }

  /** The engine's invariant on the per-row state: the oscillation base is
      always the last value sent, and a running timer has one. */
  predicate Coherent(last: seq<Option<nat>>, active: seq<bool>, base: seq<Option<nat>>)
    requires |active| == |last| && |base| == |last|
  {
    forall i | 0 <= i < |last| :: base[i] == last[i] && (active[i] ==> last[i].Some?)
  }

  // ---------------------------------------------------------------------------
  // Properties of the tick

  /** The tick keeps the invariant. */
  lemma TickCoherent(devices: seq<Device>, rows: seq<Row>, last: seq<Option<nat>>, active: seq<bool>,
                     base: seq<Option<nat>>, start: seq<Option<int>>, tokens: seq<nat>, now: int)
    requires |last| == |rows| && |active| == |rows| && |base| == |rows| && |start| == |rows|
    requires Coherent(last, active, base)
    ensures var out := Tick(devices, rows, last, active, base, start, tokens, now);
      Coherent(out.last, out.active, out.base)
  {
  }

  /** A command of the tick is for a row with a new number, on that row's
      device, at `clamp(v / 100, 0, 1)`; every row with a new number whose
      device exists and vibrates sends exactly that; the commands come in row
      order, one per row at most. */
  lemma {:induction false} TickSendsSpec(devices: seq<Device>, rows: seq<Row>, last: seq<Option<nat>>, tokens: seq<nat>, k: nat)
    requires k <= |rows| <= |last|
    ensures forall c | c in TickSends(devices, rows, last, tokens, k) ::
      && c.device < k && IsNew(rows[c.device], last[c.device], tokens)
      && c.level == Clamp(Fraction(TokenFor(rows[c.device], tokens)), 0.0, 1.0)
    ensures forall i | 0 <= i < k && IsNew(rows[i], last[i], tokens) && i < |devices| && devices[i].hasVibrate ::
      Vibrate(i, Clamp(Fraction(TokenFor(rows[i], tokens)), 0.0, 1.0)) in TickSends(devices, rows, last, tokens, k)
    ensures forall a, b | 0 <= a < b < |TickSends(devices, rows, last, tokens, k)| ::
      TickSends(devices, rows, last, tokens, k)[a].device < TickSends(devices, rows, last, tokens, k)[b].device
  {
    if k > 0 {
      TickSendsSpec(devices, rows, last, tokens, k - 1);
      var prev := TickSends(devices, rows, last, tokens, k - 1);
      var all := TickSends(devices, rows, last, tokens, k);
      forall a, b | 0 <= a < b < |all| ensures all[a].device < all[b].device {
        if b >= |prev| {
          assert all[a] in prev || a >= |prev|;
        } else {
          assert all[a] == prev[a] && all[b] == prev[b];
        }
      }
    }
  }

  /** A second tick on the same numbers (at any later time) sends nothing,
      keeps every value, and leaves exactly the in-range rows with a positive
      slider oscillating. */
  lemma SecondTickQuiet(devices: seq<Device>, rows: seq<Row>, last: seq<Option<nat>>, active: seq<bool>,
                        base: seq<Option<nat>>, start: seq<Option<int>>, tokens: seq<nat>, now: int, later: int)
    requires |last| == |rows| && |active| == |rows| && |base| == |rows| && |start| == |rows|
    ensures var one := Tick(devices, rows, last, active, base, start, tokens, now);
      var two := Tick(devices, rows, one.last, one.active, one.base, one.start, tokens, later);
      && two.sends == []
      && two.last == one.last && two.base == one.base
      && forall i | 0 <= i < |rows| && InRange(rows[i], tokens) :: two.active[i] == (rows[i].osc > 0)
  {
    var one := Tick(devices, rows, last, active, base, start, tokens, now);
    NoNewTwice(devices, rows, last, one.last, tokens, |rows|);
  }

  lemma {:induction false} NoNewTwice(devices: seq<Device>, rows: seq<Row>, last: seq<Option<nat>>,
                                      last': seq<Option<nat>>, tokens: seq<nat>, k: nat)
    requires k <= |rows| == |last| == |last'|
    requires forall i | 0 <= i < |rows| :: last'[i] == NextLast(rows[i], last[i], tokens)
    ensures TickSends(devices, rows, last', tokens, k) == []
  {
    if k > 0 {
      NoNewTwice(devices, rows, last, last', tokens, k - 1);
    }
  }

  // ---------------------------------------------------------------------------
  // Oscillation

  /** `oscillated = base + (osc/100) * base * sin(...)`, clamped to [0, 100];
      s is the sine's value. */
  function Oscillated(base: nat, osc: nat, s: real): real
  {
    Clamp(base as real + Amplitude(base, osc) * s, 0.0, 100.0)
  }

  /** `amplitude = (osc / 100) * base` */
  function Amplitude(base: nat, osc: nat): real
  {
    (osc as real / 100.0) * base as real
  }

  /** The oscillated value stays in [0, 100]; for a base in 0..100 and a
      slider of at most 100 it stays within the amplitude (osc% of the base)
      of the base, and it is the base itself where the sine is 0. */
  lemma OscillatedSpec(base: nat, osc: nat, s: real)
    requires -1.0 <= s <= 1.0
    ensures 0.0 <= Oscillated(base, osc, s) <= 100.0
    ensures base <= 100 && osc <= 100 ==>
      base as real - Amplitude(base, osc) <= Oscillated(base, osc, s) <= base as real + Amplitude(base, osc)
    ensures base <= 100 ==> Oscillated(base, osc, 0.0) == base as real
  {
    var o, b := osc as real / 100.0, base as real;
    MulZero(o * b);
    if base <= 100 && osc <= 100 {
      ScaledWithin(o, b, s);
      ClampWithin(b, o * b, (o * b) * s);
    }
  }

  /** Clamping b + t to [0, 100] stays within a of b when |t| <= a <= b <= 100. */
  lemma ClampWithin(b: real, a: real, t: real)
    requires 0.0 <= a <= b <= 100.0 && -a <= t <= a
    ensures b - a <= Clamp(b + t, 0.0, 100.0) <= b + a
  {
  }

  // ---------------------------------------------------------------------------
  // Stop

  /** `stopMapping`: 0 to each of the first k client devices. */
  function StopSends(devices: seq<Device>, k: nat): seq<Command>
    requires k <= |devices|
  {
    if k == 0 then [] else StopSends(devices, k - 1) + SendTo(devices, k - 1, 0.0)
  }

  /** Stop sends level 0 exactly to the devices with a `vibrate` method, in order. */
  lemma {:induction false} StopSendsSpec(devices: seq<Device>, k: nat)
    requires k <= |devices|
    ensures forall c | c in StopSends(devices, k) :: c.level == 0.0 && c.device < k && devices[c.device].hasVibrate
    ensures forall i | 0 <= i < k && devices[i].hasVibrate :: Vibrate(i, 0.0) in StopSends(devices, k)
    ensures forall a, b | 0 <= a < b < |StopSends(devices, k)| ::
      StopSends(devices, k)[a].device < StopSends(devices, k)[b].device
  {
    if k > 0 {
      StopSendsSpec(devices, k - 1);
      var prev := StopSends(devices, k - 1);
      var all := StopSends(devices, k);
      forall a, b | 0 <= a < b < |all| ensures all[a].device < all[b].device {
        if b >= |prev| {
          assert all[a] in prev || a >= |prev|;
        } else {
          assert all[a] == prev[a] && all[b] == prev[b];
        }
      }
    }
  }

  // ---------------------------------------------------------------------------
  // The engine state and its operations

  class Engine {
    /** `client.devices` */
    const devices: seq<Device>
    var isConnected: bool
    var mappingStarted: bool
    /** `mappingConfig` */
    var rows: seq<Row>
    var lastSentValues: seq<Option<nat>>
    /** whether `oscillationTimers[i]` holds a running interval */
    var oscillationTimers: seq<bool>
    var oscillationBases: seq<Option<nat>>
    var oscillationStartTime: seq<Option<int>>
    /** every device call made so far */
    var sent: seq<Command>

    ghost predicate Valid()
      reads this
    {
      && |lastSentValues| == |rows| && |oscillationTimers| == |rows|
      && |oscillationBases| == |rows| && |oscillationStartTime| == |rows|
      && Coherent(lastSentValues, oscillationTimers, oscillationBases)
      && forall i | 0 <= i < |rows| :: rows[i].mapping >= 1
    }

    constructor (devices: seq<Device>, connected: bool)
      ensures Valid()
      ensures this.devices == devices && isConnected == connected && !mappingStarted
      ensures rows == [] && sent == []
    {
      this.devices := devices;
      isConnected := connected;
      mappingStarted := false;
      rows := [];
      lastSentValues := [];
      oscillationTimers := [];
      oscillationBases := [];
      oscillationStartTime := [];
      sent := [];
    }

    /** The outcome of `checkConnectionStatus`. */
    method SetConnected(connected: bool)
      modifies this`isConnected
      ensures isConnected == connected
    {
      isConnected := connected;
    }

    /** `startMapping`: clear every timer and rebuild the rows from the
        settings with every per-row value null. */
    method StartMapping(settings: seq<Row>)
      requires forall i | 0 <= i < |settings| :: settings[i].mapping >= 1
      modifies this
      ensures Valid()
      ensures rows == settings && mappingStarted && isConnected == old(isConnected) && sent == old(sent)
      ensures lastSentValues == Nulls(|settings|) && oscillationBases == Nulls(|settings|)
      ensures oscillationTimers == Falses(|settings|)
      ensures oscillationStartTime == Nulls(|settings|)
    {
      rows := settings;
      lastSentValues := Nulls(|settings|);
      oscillationTimers := Falses(|settings|);
      oscillationBases := Nulls(|settings|);
      oscillationStartTime := Nulls(|settings|);
      mappingStarted := true;
    }

    /** Moving an oscillation slider while mapping runs only marks the mapping
        as stopped ("Restart"); the timers keep running. */
    method SliderMoved()
      modifies this`mappingStarted
      ensures !mappingStarted
    {
      mappingStarted := false;
    }

    method SendVibration(i: nat, percent: real)
      modifies this`sent
      ensures sent == old(sent) + SendTo(devices, i, percent)
    {
      if i < |devices| && devices[i].hasVibrate {
        sent := sent + [Vibrate(i, Clamp(percent / 100.0, 0.0, 1.0))];
      }
    }

    /** `stopMapping`: stop the tick and every timer, then 0 to every client device. */
    method StopMapping()
      requires Valid()
      modifies this
      ensures Valid() && !mappingStarted
      ensures oscillationTimers == Falses(|rows|)
      ensures rows == old(rows) && lastSentValues == old(lastSentValues) && oscillationBases == old(oscillationBases)
      ensures oscillationStartTime == old(oscillationStartTime) && isConnected == old(isConnected)
      ensures sent == old(sent) + StopSends(devices, |devices|)
    {
      mappingStarted := false;
      oscillationTimers := Falses(|rows|);
      var i := 0;
      while i < |devices|
        invariant 0 <= i <= |devices|
        invariant rows == old(rows) && lastSentValues == old(lastSentValues) && oscillationBases == old(oscillationBases)
        invariant oscillationStartTime == old(oscillationStartTime) && isConnected == old(isConnected)
        invariant !mappingStarted && oscillationTimers == Falses(|rows|)
        invariant sent == old(sent) + StopSends(devices, i)
      {
        SendVibration(i, 0.0);
        i := i + 1;
      }
    }

    /** One firing of row i's oscillation timer, the sine being s. */
    method Fire(i: nat, s: real)
      requires Valid() && i < |rows| && oscillationTimers[i] && -1.0 <= s <= 1.0
      modifies this`sent
      ensures oscillationBases[i].Some?
      ensures sent == old(sent) + SendTo(devices, i, Oscillated(oscillationBases[i].value, rows[i].osc, s))
    {
      var base := oscillationBases[i].value;
      SendVibration(i, Oscillated(base, rows[i].osc, s));
    }

    /** `checkMessages`: nothing happens unless connected and started and a
        message holds a digit; otherwise the rows' state and the log follow
        `Tick` on every 1-3 digit number of that message. */
    method CheckMessages(msgs: seq<string>, now: int)
      requires Valid()
      modifies this
      ensures Valid()
      ensures rows == old(rows) && isConnected == old(isConnected) && mappingStarted == old(mappingStarted)
      ensures var text := LatestWithDigit(msgs);
        if !old(isConnected) || !old(mappingStarted) || text.None? then
          && lastSentValues == old(lastSentValues) && oscillationTimers == old(oscillationTimers)
          && oscillationBases == old(oscillationBases) && oscillationStartTime == old(oscillationStartTime)
          && sent == old(sent)
        else
          var out := Tick(devices, rows, old(lastSentValues), old(oscillationTimers), old(oscillationBases),
                          old(oscillationStartTime), Tokens(text.value, false), now);
          && lastSentValues == out.last && oscillationTimers == out.active
          && oscillationBases == out.base && oscillationStartTime == out.start
          && sent == old(sent) + out.sends
    {
      if !isConnected || !mappingStarted {
        return;
      }
      var text := FindLatestWithDigit(msgs);
      if text.None? {
        return;
      }
      // The source's "no numbers" return cannot happen here: a text with a
      // digit always yields a number (Tokenizer.HasDigitIffTokens).
      var tokens := Tokens(text.value, false);
      RunTick(tokens, now);
    }

    /** One tick on the given numbers: the per-row loop writes back the
        per-row state it computed. */
    method RunTick(tokens: seq<nat>, now: int)
      requires Valid()
      modifies this
      ensures Valid()
      ensures rows == old(rows) && isConnected == old(isConnected) && mappingStarted == old(mappingStarted)
      ensures var out := Tick(devices, rows, old(lastSentValues), old(oscillationTimers), old(oscillationBases),
                              old(oscillationStartTime), tokens, now);
        && lastSentValues == out.last && oscillationTimers == out.active
        && oscillationBases == out.base && oscillationStartTime == out.start
        && sent == old(sent) + out.sends
    {
      TickCoherent(devices, rows, lastSentValues, oscillationTimers, oscillationBases,
                   oscillationStartTime, tokens, now);
      var last, timers, bases, starts := TickRows(tokens, now);
      lastSentValues, oscillationTimers, oscillationBases, oscillationStartTime := last, timers, bases, starts;
    }

    /** The per-row loop of `checkMessages`, in row order. */
    method TickRows(tokens: seq<nat>, now: int)
      returns (last: seq<Option<nat>>, timers: seq<bool>, bases: seq<Option<nat>>, starts: seq<Option<int>>)
      requires |lastSentValues| == |rows| && |oscillationTimers| == |rows|
      requires |oscillationBases| == |rows| && |oscillationStartTime| == |rows|
      requires forall i | 0 <= i < |rows| :: rows[i].mapping >= 1
      modifies this`sent
      ensures var out := Tick(devices, rows, lastSentValues, oscillationTimers, oscillationBases,
                              oscillationStartTime, tokens, now);
        && last == out.last && timers == out.active && bases == out.base && starts == out.start
        && sent == old(sent) + out.sends
    {
      ghost var sent0 := sent;
      var rs, last0, timers0, bases0, starts0 := rows, lastSentValues, oscillationTimers, oscillationBases, oscillationStartTime;
      last, timers, bases, starts := last0, timers0, bases0, starts0;
      var i := 0;
      while i < |rs|
        invariant 0 <= i <= |rs| && rs == rows
        invariant |last| == |rs| && |timers| == |rs| && |bases| == |rs| && |starts| == |rs|
        invariant RowsTicked(rs, last0, timers0, bases0, starts0, tokens, now, i, last, timers, bases, starts)
        invariant sent == sent0 + TickSends(devices, rs, last0, tokens, i)
      {
        ghost var before := TickSends(devices, rs, last0, tokens, i);
        var l, t, b, st := ApplyRow(i, tokens, now, last[i], timers[i], bases[i], starts[i]);
        RowsTickedStep(rs, last0, timers0, bases0, starts0, tokens, now, i, last, timers, bases, starts, l, t, b, st);
        ghost var extra := if IsNew(rs[i], last0[i], tokens) then SendTo(devices, i, TokenFor(rs[i], tokens) as real) else [];
        assert sent == (sent0 + before) + extra;
        AppendAssoc(sent0, before, extra);
        last, timers, bases, starts := last[i := l], timers[i := t], bases[i := b], starts[i := st];
        i := i + 1;
      }
      RowsTickedDone(devices, rs, last0, timers0, bases0, starts0, tokens, now, last, timers, bases, starts);
    }

    /** The body of the per-row loop for row i, on that row's values. */
    method ApplyRow(i: nat, tokens: seq<nat>, now: int, last: Option<nat>, timer: bool,
                    base: Option<nat>, start: Option<int>)
      returns (last': Option<nat>, timer': bool, base': Option<nat>, start': Option<int>)
      requires i < |rows| && rows[i].mapping >= 1
      modifies this`sent
      ensures last' == NextLast(rows[i], last, tokens) && timer' == NextActive(rows[i], last, timer, tokens)
      ensures base' == NextBase(rows[i], last, base, tokens) && start' == NextStart(rows[i], last, timer, start, tokens, now)
      ensures sent == old(sent) +
        if IsNew(rows[i], last, tokens) then SendTo(devices, i, TokenFor(rows[i], tokens) as real) else []
    {
      last', timer', base', start' := last, timer, base, start;
      var r := rows[i];
      if r.mapping - 1 < |tokens| {
        var newValue := tokens[r.mapping - 1];
        if Some(newValue) != last {
          timer' := false;
          base' := Some(newValue);
          start' := Some(now);
          SendVibration(i, newValue as real);
          last' := Some(newValue);
        } else if r.osc > 0 {
          if !timer {
            start' := Some(now);
            timer' := true;
          }
        } else {
          timer' := false;
        }
      }
    }
  }
}
