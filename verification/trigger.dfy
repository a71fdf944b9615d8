/** The button-trigger state machine of the core daemon (`core.py`), written as
    a discrete event system instead of threads.

    A state records which buttons have a `when_pressed` handler (`armed`), the
    level of every LED, the firing in progress (the command lock is held
    exactly while there is one), the debounce threads that have not yet
    re-enabled their button (`pending`), and the append-only log of database
    trigger rows and executed commands.

    Events:
    - `Press(b)`: a rising edge on button `b`, delivered only while its handler
      is set; accepted only while the lock is free.
    - `DbWrite(o)`: the trigger row is committed (`Completed`) or the database
      code raises (`Raised`); a committed row is followed by the command start.
    - `CommandDone(o)`: the command returned or raised; the `finally` block runs.
    - `Rearm(b)`: one debounce thread for button `b` wakes up and re-enables it.

    Timing (blink phases, the 0.3 s debounce sleep) is abstracted into the order
    of events; the blink thread is the LED level `Blinking`. */
module Trigger {
  import opened Base
  import opened Text
  import App

  datatype Level = On | Off | Blinking

  /** One entry of the log: a database trigger row, or a command handed to the shell. */
  datatype Record =
    | TriggerRow(button: nat, pin: int)
    | CommandRun(command: string)

  /** The configuration the core reads. `pinLabels[b]` is the text of button
      `b`'s pin object as it appears in the sound-file name; `env` is the
      process environment that `os.path.expandvars` reads. */
  datatype Config = Config(
    buttonPins: seq<int>,
    pinLabels: seq<string>,
    ledPins: seq<int>,
    player: string,
    folder: string,
    env: map<string, string>)

  /** The default `SOUNDFILE_FOLDER` (`config.py:37`). */
  const DefaultSoundFolder: string := "${HOME}/Pi3Ctrl"

  /** `Starting`: LEDs set, trigger row not yet written. `Running`: row written,
      command in flight. */
  datatype Stage = Starting | Running

  datatype Firing = Firing(button: nat, stage: Stage)

  datatype State = State(
    firing: Option<Firing>,
    armed: seq<bool>,
    leds: seq<Level>,
    pending: multiset<nat>,
    log: seq<Record>)
  {
    /** `_execute_command_lock.locked()`. */
    predicate Locked() {
      firing.Some?
    }

    /** A firing whose trigger row has not been written yet. */
    predicate Recording() {
      firing.Some? && firing.value.stage == Starting
    }
  }

  datatype Outcome = Completed | Raised

  datatype Event =
    | Press(button: nat)
    | DbWrite(outcome: Outcome)
    | CommandDone(outcome: Outcome)
    | Rearm(button: nat)

  // ---- derived values

  function Buttons(n: nat): (r: seq<nat>)
    ensures |r| == n && forall k :: 0 <= k < n ==> r[k] == k
  {
    seq(n, (k: nat) => k)
  }

  /** Every LED in standby (`set_leds_standby`). */
  function Standby(n: nat): seq<Level> {
    seq(n, _ => On)
  }

  /** The LED picture while button `b` fires: its LED blinks, all others are off. */
  function FiringLeds(n: nat, b: nat): seq<Level> {
    seq(n, j => if j == b then Blinking else Off)
  }

  /** The sound file of button `b`: `SOUNDFILE_FOLDER/soundFile.<index>.<pin>`,
      with environment variables expanded. */
  function SoundPath(cfg: Config, b: nat): string
    requires b < |cfg.pinLabels|
  {
    ExpandVars(cfg.env, PathJoin(cfg.folder, "soundFile." + NatToString(b) + "." + cfg.pinLabels[b]))
  }

  /** The shell command run for button `b`. */
  function Command(cfg: Config, b: nat): string
    requires b < |cfg.pinLabels|
  {
    cfg.player + " " + SoundPath(cfg, b) + " -v"
  }

  /** What one firing of button `b` adds to the log: its trigger row, then its command. */
  function Pair(cfg: Config, b: nat): seq<Record>
    requires b < |cfg.buttonPins| == |cfg.pinLabels|
  {
    [TriggerRow(b, cfg.buttonPins[b]), CommandRun(Command(cfg, b))]
  }

  // ---- invariant

  predicate Shaped(cfg: Config, s: State) {
    |cfg.pinLabels| == |cfg.buttonPins| == |s.armed| && |s.leds| == |cfg.ledPins|
  }

  /** The log is a sequence of firings, each a trigger row immediately followed
      by the command of the same button. */
  predicate PairedLog(cfg: Config, log: seq<Record>)
    requires |cfg.pinLabels| == |cfg.buttonPins|
    decreases |log|
  {
    |log| == 0
    || (&& |log| >= 2
        && log[0].TriggerRow?
        && log[0].button < |cfg.buttonPins|
        && log[..2] == Pair(cfg, log[0].button)
        && PairedLog(cfg, log[2..]))
  }

  predicate Inv(cfg: Config, s: State) {
    && Shaped(cfg, s)
    && (forall b | b in s.pending :: b < |cfg.buttonPins|)
    && (match s.firing
        case None => s.leds == Standby(|s.leds|)
        case Some(f) =>
          && f.button < |cfg.buttonPins|
          && s.leds == FiringLeds(|s.leds|, f.button)
          && (f.stage == Running ==> |s.log| >= 2 && s.log[|s.log| - 2..] == Pair(cfg, f.button)))
    && PairedLog(cfg, s.log)
  }

  /** The state `main` waits in and every firing returns to: lock free, every
      button armed, every LED in standby, no debounce thread outstanding. */
  predicate Idle(cfg: Config, s: State) {
    && Inv(cfg, s)
    && s.firing.None?
    && (forall j :: 0 <= j < |s.armed| ==> s.armed[j])
    && s.pending == multiset{}
  }

  lemma {:induction false} PairedLogAppend(cfg: Config, log: seq<Record>, b: nat)
    requires |cfg.pinLabels| == |cfg.buttonPins| && b < |cfg.buttonPins|
    requires PairedLog(cfg, log)
    ensures PairedLog(cfg, log + Pair(cfg, b))
    decreases |log|
  {
    var ext := log + Pair(cfg, b);
    if |log| == 0 {
      assert ext == Pair(cfg, b);
      assert ext[2..] == [];
    } else {
      PairedLogAppend(cfg, log[2..], b);
      assert ext[..2] == log[..2];
      assert ext[2..] == log[2..] + Pair(cfg, b);
    }
  }

  // ---- events

  /** `main`: every handler attached, every LED in standby, nothing logged. */
  function Init(cfg: Config): (s: State)
    requires |cfg.pinLabels| == |cfg.buttonPins|
    ensures Idle(cfg, s) && s.log == []
  {
    State(None, seq(|cfg.buttonPins|, _ => true), Standby(|cfg.ledPins|), multiset{}, [])
  }

  /** The guard of `execute_command`: the edge is delivered only to an armed
      button, and the handler proceeds only while the lock is free. */
  predicate Accepts(s: State, b: nat) {
    b < |s.armed| && s.armed[b] && !s.Locked()
  }

  /** A rising edge on button `b`. An accepted press takes the lock, clears
      every handler, then turns every LED off and starts the pressed button's
      blink; a rejected one changes nothing. */
  function ExecuteCommand(cfg: Config, s: State, b: nat): (r: State)
    requires Inv(cfg, s)
    ensures Inv(cfg, r)
    ensures !Accepts(s, b) ==> r == s
    ensures Accepts(s, b) ==>
              && r.firing == Some(Firing(b, Starting))
              && (forall j :: 0 <= j < |r.armed| ==> !r.armed[j])
              && (forall j :: 0 <= j < |r.leds| ==> r.leds[j] == if j == b then Blinking else Off)
              && r.pending == s.pending
              && r.log == s.log
  {
    if !Accepts(s, b) then s
    else
      var disarmed := s.(firing := Some(Firing(b, Starting)), armed := seq(|s.armed|, _ => false));
      disarmed.(leds := FiringLeds(|s.leds|, b))
  }

  /** The `finally` block: stop the blink, put every LED in standby, release
      the lock, and start one debounce thread per button, each of which first
      clears its button's handler. */
  function Cleanup(cfg: Config, s: State): (r: State)
    requires Inv(cfg, s)
    ensures Inv(cfg, r)
    ensures !r.Locked()
    ensures forall j :: 0 <= j < |r.leds| ==> r.leds[j] == On
    ensures forall j :: 0 <= j < |r.armed| ==> !r.armed[j]
    ensures r.pending == s.pending + multiset(Buttons(|cfg.buttonPins|))
    ensures r.log == s.log
  {
    State(None, seq(|s.armed|, _ => false), Standby(|s.leds|),
          s.pending + multiset(Buttons(|cfg.buttonPins|)), s.log)
  }

  /** The database write of a firing. A committed row is logged together with
      the command that then starts; a raising write skips the command and goes
      straight to the `finally` block. */
  function RecordTrigger(cfg: Config, s: State, o: Outcome): (r: State)
    requires Inv(cfg, s)
    ensures Inv(cfg, r)
    ensures !s.Recording() ==> r == s
    ensures s.Recording() && o == Completed ==>
              r == s.(firing := Some(Firing(s.firing.value.button, Running)),
                      log := s.log + Pair(cfg, s.firing.value.button))
    ensures s.Recording() && o == Raised ==> r == Cleanup(cfg, s)
  {
    if !s.Recording() then s
    else if o == Raised then Cleanup(cfg, s)
    else
      var b := s.firing.value.button;
      PairedLogAppend(cfg, s.log, b);
      s.(firing := Some(Firing(b, Running)), log := s.log + Pair(cfg, b))
  }

  /** The command returned or raised: either way the `finally` block runs. */
  function Finish(cfg: Config, s: State, o: Outcome): (r: State)
    requires Inv(cfg, s)
    ensures Inv(cfg, r)
    ensures s.firing.Some? && s.firing.value.stage == Running ==> r == Cleanup(cfg, s)
    ensures !(s.firing.Some? && s.firing.value.stage == Running) ==> r == s
  {
    if s.firing.Some? && s.firing.value.stage == Running then Cleanup(cfg, s) else s
  }

  /** One debounce thread of button `b` wakes up and sets its handler again.
      It touches neither the LEDs, the lock nor the log, and no other button. */
  function DebounceWake(cfg: Config, s: State, b: nat): (r: State)
    requires Inv(cfg, s)
    ensures Inv(cfg, r)
    ensures b !in s.pending ==> r == s
    ensures b in s.pending ==>
              && r.pending == s.pending - multiset{b}
              && b < |r.armed| && r.armed[b]
              && (forall j :: 0 <= j < |r.armed| && j != b ==> r.armed[j] == s.armed[j])
    ensures r.firing == s.firing && r.leds == s.leds && r.log == s.log
  {
    if b !in s.pending then s
    else s.(armed := s.armed[b := true], pending := s.pending - multiset{b})
  }

  /** One event. The log only ever grows, and it grows, by exactly one trigger
      row followed by its command, only when a firing's database write commits. */
  function Step(cfg: Config, s: State, e: Event): (r: State)
    requires Inv(cfg, s)
    ensures Inv(cfg, r)
    ensures r.log == if e == DbWrite(Completed) && s.Recording()
                     then s.log + Pair(cfg, s.firing.value.button)
                     else s.log
  {
    match e
    case Press(b) => ExecuteCommand(cfg, s, b)
    case DbWrite(o) => RecordTrigger(cfg, s, o)
    case CommandDone(o) => Finish(cfg, s, o)
    case Rearm(b) => DebounceWake(cfg, s, b)
  }

  /** A sequence of events applied in order. */
  function Run(cfg: Config, s: State, evs: seq<Event>): (r: State)
    requires Inv(cfg, s)
    ensures Inv(cfg, r)
    ensures s.log <= r.log
    decreases |evs|
  {
    if |evs| == 0 then s else Run(cfg, Step(cfg, s, evs[0]), evs[1..])
  }

  // ---- properties

  /** At most one LED blinks, and only the LED of the button that holds the lock. */
  lemma AtMostOneBlinking(cfg: Config, s: State, j: int, k: int)
    requires Inv(cfg, s)
    requires 0 <= j < |s.leds| && 0 <= k < |s.leds|
    requires s.leds[j] == Blinking && s.leds[k] == Blinking
    ensures j == k
    ensures s.firing.Some? && s.firing.value.button == j
  {
  }

  lemma {:induction false} RunAppend(cfg: Config, s: State, a: seq<Event>, b: seq<Event>)
    requires Inv(cfg, s)
    ensures Run(cfg, s, a + b) == Run(cfg, Run(cfg, s, a), b)
    decreases |a|
  {
    if |a| > 0 {
      assert (a + b)[0] == a[0];
      assert (a + b)[1..] == a[1..] + b;
      RunAppend(cfg, Step(cfg, s, a[0]), a[1..], b);
    } else {
      assert a + b == b;
    }
  }

  /** Edges and debounce wake-ups while the lock is held change neither the
      firing, the LEDs nor the log: presses during a firing are dropped, even
      on a button an earlier cycle's debounce thread has just re-armed. */
  lemma {:induction false} PressesDuringFiringDropped(cfg: Config, s: State, evs: seq<Event>)
    requires Inv(cfg, s) && s.Locked()
    requires forall k :: 0 <= k < |evs| ==> evs[k].Press? || evs[k].Rearm?
    ensures Run(cfg, s, evs).firing == s.firing
    ensures Run(cfg, s, evs).leds == s.leds
    ensures Run(cfg, s, evs).log == s.log
    decreases |evs|
  {
    if |evs| > 0 {
      PressesDuringFiringDropped(cfg, Step(cfg, s, evs[0]), evs[1..]);
    }
  }

  function TriggerCount(log: seq<Record>): nat
  {
    if |log| == 0 then 0 else (if log[0].TriggerRow? then 1 else 0) + TriggerCount(log[1..])
  }

  lemma {:induction false} TriggerCountAppend(a: seq<Record>, b: seq<Record>)
    ensures TriggerCount(a + b) == TriggerCount(a) + TriggerCount(b)
    decreases |a|
  {
    if |a| > 0 {
      assert (a + b)[1..] == a[1..] + b;
      TriggerCountAppend(a[1..], b);
    } else {
      assert a + b == b;
    }
  }

  /** Number of presses accepted along a run. */
  function Accepted(cfg: Config, s: State, evs: seq<Event>): nat
    requires Inv(cfg, s)
    decreases |evs|
  {
    if |evs| == 0 then 0
    else (if evs[0].Press? && Accepts(s, evs[0].button) then 1 else 0)
         + Accepted(cfg, Step(cfg, s, evs[0]), evs[1..])
  }

  /** Number of database writes along a run that committed a trigger row. */
  function Written(cfg: Config, s: State, evs: seq<Event>): nat
    requires Inv(cfg, s)
    decreases |evs|
  {
    if |evs| == 0 then 0
    else (if evs[0] == DbWrite(Completed) && s.Recording() then 1 else 0)
         + Written(cfg, Step(cfg, s, evs[0]), evs[1..])
  }

  function Owed(s: State): nat {
    if s.Recording() then 1 else 0
  }

  /** The counting facts of one step. */
  lemma StepCounts(cfg: Config, s: State, e: Event)
    requires Inv(cfg, s)
    ensures TriggerCount(Step(cfg, s, e).log)
            == TriggerCount(s.log) + (if e == DbWrite(Completed) && s.Recording() then 1 else 0)
    ensures (if e == DbWrite(Completed) && s.Recording() then 1 else 0) + Owed(Step(cfg, s, e))
            <= (if e.Press? && Accepts(s, e.button) then 1 else 0) + Owed(s)
  {
    if e == DbWrite(Completed) && s.Recording() {
      var p := Pair(cfg, s.firing.value.button);
      TriggerCountAppend(s.log, p);
      assert p[0].TriggerRow? && !p[1].TriggerRow?;
      assert p[1..][1..] == [];
      assert TriggerCount(p[1..][1..]) == 0;
      assert TriggerCount(p[1..]) == 0;
      assert TriggerCount(p) == 1;
    }
  }

  /** Every trigger row in the log comes from a committed write, and no
      accepted press produces more than one: from `Init`, the number of rows is
      at most the number of accepted presses. */
  lemma {:induction false} OneRowPerPress(cfg: Config, s: State, evs: seq<Event>)
    requires Inv(cfg, s)
    ensures TriggerCount(Run(cfg, s, evs).log) == TriggerCount(s.log) + Written(cfg, s, evs)
    ensures Written(cfg, s, evs) + Owed(Run(cfg, s, evs)) <= Accepted(cfg, s, evs) + Owed(s)
    decreases |evs|
  {
    if |evs| > 0 {
      var t := Step(cfg, s, evs[0]);
      StepCounts(cfg, s, evs[0]);
      OneRowPerPress(cfg, t, evs[1..]);
      assert Run(cfg, s, evs) == Run(cfg, t, evs[1..]);
      assert Written(cfg, s, evs)
             == (if evs[0] == DbWrite(Completed) && s.Recording() then 1 else 0) + Written(cfg, t, evs[1..]);
      assert Accepted(cfg, s, evs)
             == (if evs[0].Press? && Accepts(s, evs[0].button) then 1 else 0) + Accepted(cfg, t, evs[1..]);
    }
  }

  function Rearms(order: seq<nat>): (evs: seq<Event>)
    ensures |evs| == |order| && forall k :: 0 <= k < |order| ==> evs[k] == Rearm(order[k])
  {
    seq(|order|, k requires 0 <= k < |order| => Rearm(order[k]))
  }

  /** `armed` after the buttons listed in `order` have been re-enabled. */
  function ArmedAfter(armed: seq<bool>, order: seq<nat>): (r: seq<bool>)
    ensures |r| == |armed|
  {
    seq(|armed|, j requires 0 <= j < |armed| => armed[j] || j in order)
  }

  lemma ArmedAfterCons(armed: seq<bool>, b: nat, order: seq<nat>)
    requires b < |armed| && |order| > 0 && order[0] == b
    ensures ArmedAfter(armed[b := true], order[1..]) == ArmedAfter(armed, order)
  {
    assert order == [b] + order[1..];
  }

  lemma PendingCons(pending: multiset<nat>, order: seq<nat>)
    requires |order| > 0 && multiset(order) <= pending
    ensures order[0] in pending
    ensures multiset(order[1..]) <= pending - multiset{order[0]}
    ensures (pending - multiset{order[0]}) - multiset(order[1..]) == pending - multiset(order)
  {
    assert order == [order[0]] + order[1..];
    assert multiset(order) == multiset{order[0]} + multiset(order[1..]);
  }

  /** Debounce wake-ups in any order: each re-enables its own button and
      consumes its pending entry. */
  lemma {:induction false} RearmsApply(cfg: Config, s: State, order: seq<nat>)
    requires Inv(cfg, s) && multiset(order) <= s.pending
    ensures Run(cfg, s, Rearms(order))
            == s.(armed := ArmedAfter(s.armed, order), pending := s.pending - multiset(order))
    decreases |order|
  {
    if |order| == 0 {
      assert s.armed == ArmedAfter(s.armed, order);
    } else {
      var b := order[0];
      PendingCons(s.pending, order);
      var t := DebounceWake(cfg, s, b);
      assert t == s.(armed := s.armed[b := true], pending := s.pending - multiset{b});
      assert Rearms(order)[1..] == Rearms(order[1..]);
      assert Run(cfg, s, Rearms(order)) == Run(cfg, t, Rearms(order[1..]));
      RearmsApply(cfg, t, order[1..]);
      ArmedAfterCons(s.armed, b, order);
    }
  }

  lemma RunCons(cfg: Config, s: State, evs: seq<Event>)
    requires Inv(cfg, s) && |evs| > 0
    ensures Run(cfg, s, evs) == Run(cfg, Step(cfg, s, evs[0]), evs[1..])
  {
  }

  /** A whole firing from the idle state: once every debounce thread has
      fired, in whatever order, the system is idle again and the log has grown
      by exactly this firing's row and command. */
  lemma FiringCycle(cfg: Config, s: State, b: nat, o: Outcome, order: seq<nat>)
    requires Idle(cfg, s) && b < |cfg.buttonPins|
    requires multiset(order) == multiset(Buttons(|cfg.buttonPins|))
    ensures Run(cfg, s, [Press(b), DbWrite(Completed), CommandDone(o)] + Rearms(order))
            == s.(log := s.log + Pair(cfg, b))
  {
    var evs := [Press(b), DbWrite(Completed), CommandDone(o)];
    RunAppend(cfg, s, evs, Rearms(order));
    var s1 := ExecuteCommand(cfg, s, b);
    var s2 := RecordTrigger(cfg, s1, Completed);
    var s3 := Finish(cfg, s2, o);
    RunCons(cfg, s, evs);
    assert evs[1..] == [DbWrite(Completed), CommandDone(o)];
    RunCons(cfg, s1, evs[1..]);
    assert evs[1..][1..] == [CommandDone(o)];
    RunCons(cfg, s2, evs[1..][1..]);
    assert Run(cfg, s, evs) == s3;
    RearmAllRestores(cfg, s, s3, order);
  }

  /** A firing whose database write raises still runs the `finally` block:
      after the debounce threads the state is exactly the idle state it
      started from, and nothing was logged. */
  lemma FailedWriteCycle(cfg: Config, s: State, b: nat, order: seq<nat>)
    requires Idle(cfg, s) && b < |cfg.buttonPins|
    requires multiset(order) == multiset(Buttons(|cfg.buttonPins|))
    ensures Run(cfg, s, [Press(b), DbWrite(Raised)] + Rearms(order)) == s
  {
    var evs := [Press(b), DbWrite(Raised)];
    RunAppend(cfg, s, evs, Rearms(order));
    var s1 := ExecuteCommand(cfg, s, b);
    var s2 := RecordTrigger(cfg, s1, Raised);
    RunCons(cfg, s, evs);
    assert evs[1..] == [DbWrite(Raised)];
    RunCons(cfg, s1, evs[1..]);
    assert Run(cfg, s, evs) == s2;
    RearmAllRestores(cfg, s, s2, order);
  }

  /** After a cleanup from an idle start, one wake-up per button restores the
      idle picture. */
  lemma RearmAllRestores(cfg: Config, s: State, t: State, order: seq<nat>)
    requires Idle(cfg, s) && Inv(cfg, t)
    requires t.firing.None? && t.leds == s.leds && |t.armed| == |s.armed|
    requires t.pending == multiset(Buttons(|cfg.buttonPins|))
    requires multiset(order) == t.pending
    ensures Run(cfg, t, Rearms(order)) == s.(log := t.log)
  {
    RearmsApply(cfg, t, order);
    var armed := ArmedAfter(t.armed, order);
    EveryButtonRearmed(t.armed, order);
    AllArmed(armed, s.armed);
    assert t.pending - multiset(order) == multiset{} == s.pending;
    var u := t.(armed := armed, pending := t.pending - multiset(order));
    assert u.firing == s.firing && u.leds == s.leds;
    assert u == s.(log := t.log);
  }

  lemma AllArmed(a: seq<bool>, b: seq<bool>)
    requires |a| == |b|
    requires forall j :: 0 <= j < |a| ==> a[j]
    requires forall j :: 0 <= j < |b| ==> b[j]
    ensures a == b
  {
  }

  /** One wake-up per button re-arms every button. */
  lemma EveryButtonRearmed(armed: seq<bool>, order: seq<nat>)
    requires multiset(order) == multiset(Buttons(|armed|))
    ensures forall j :: 0 <= j < |armed| ==> ArmedAfter(armed, order)[j]
  {
    var n := |armed|;
    forall j | 0 <= j < n
      ensures j in order
    {
      assert Buttons(n)[j] == j;
      assert j in multiset(Buttons(n));
    }
  }

  // ---- the played file and the uploaded file

  /** The core names a button's file as the web application does, when the
      pin object prints as `GPIO<number>`. */
  lemma SoundFileNamesAgree(cfg: Config, b: nat)
    requires b < |cfg.buttonPins| == |cfg.pinLabels|
    requires cfg.pinLabels[b] == "GPIO" + IntToString(cfg.buttonPins[b])
    ensures SoundPath(cfg, b) == ExpandVars(cfg.env, PathJoin(cfg.folder, App.SoundFile(b, cfg.buttonPins[b])))
  {
    assert NatToString(b) == IntToString(b);
    assert "soundFile." + NatToString(b) + "." + cfg.pinLabels[b]
           == App.SoundFile(b, cfg.buttonPins[b]);
  }

  /** With the upload view expanding environment variables in the path it
      saves to, as the core does in the path it plays, the core plays exactly
      the file uploaded for the button, whatever the folder and environment. */
  lemma PlaysUploadedFile(cfg: Config, b: nat, name: string, exts: set<string>)
    requires b < |cfg.buttonPins| == |cfg.pinLabels|
    requires cfg.pinLabels[b] == "GPIO" + IntToString(cfg.buttonPins[b])
    requires name != "" && App.AllowedFile(name, exts)
    ensures App.UploadSoundfileExpanded(App.Number(b), cfg.buttonPins, Some(name), exts, cfg.folder, cfg.env)
            == App.Uploaded(SoundPath(cfg, b))
  {
    SoundFileNamesAgree(cfg, b);
  }

  /** As written, the upload view saves to the unexpanded path; the two
      agree when the folder names no environment variable. */
  lemma PlaysUploadedFileWithoutVariables(cfg: Config, b: nat, name: string, exts: set<string>)
    requires b < |cfg.buttonPins| == |cfg.pinLabels|
    requires cfg.pinLabels[b] == "GPIO" + IntToString(cfg.buttonPins[b])
    requires name != "" && App.AllowedFile(name, exts)
    requires forall k :: 0 <= k < |cfg.folder| ==> cfg.folder[k] != '$'
    ensures App.UploadSoundfile(App.Number(b), cfg.buttonPins, Some(name), exts, cfg.folder)
            == App.Uploaded(SoundPath(cfg, b))
  {
    SoundFileNamesAgree(cfg, b);
    var f := App.SoundFile(b, cfg.buttonPins[b]);
    App.SoundFilePlain(b, cfg.buttonPins[b]);
    var p := PathJoin(cfg.folder, f);
    JoinedFileName(cfg.folder, f);
    forall k | 0 <= k < |p| ensures p[k] != '$' {
      if k >= |p| - |f| {
        assert p[k] == p[|p| - |f|..][k - (|p| - |f|)];
      } else if k < |cfg.folder| {
        assert p[k] == p[..|cfg.folder|][k];
      } else {
        assert k == |p| - |f| - 1;
      }
    }
    ExpandVarsPlain(cfg.env, p);
  }

  /** With the default folder `${HOME}/Pi3Ctrl` and `HOME` set to an absolute
      path, the core plays `$HOME/Pi3Ctrl/soundFile...` while the upload view
      saved to a folder literally named `${HOME}`: the played file is never
      the uploaded one. */
  lemma DefaultFolderMismatch(cfg: Config, b: nat, name: string, exts: set<string>)
    requires b < |cfg.buttonPins| == |cfg.pinLabels|
    requires cfg.pinLabels[b] == "GPIO" + IntToString(cfg.buttonPins[b])
    requires name != "" && App.AllowedFile(name, exts)
    requires cfg.folder == DefaultSoundFolder
    requires "HOME" in cfg.env && StartsWith(cfg.env["HOME"], "/")
    ensures SoundPath(cfg, b) == cfg.env["HOME"] + "/Pi3Ctrl/" + App.SoundFile(b, cfg.buttonPins[b])
    ensures App.UploadSoundfile(App.Number(b), cfg.buttonPins, Some(name), exts, cfg.folder)
            == App.Uploaded("${HOME}/Pi3Ctrl/" + App.SoundFile(b, cfg.buttonPins[b]))
    ensures App.UploadSoundfile(App.Number(b), cfg.buttonPins, Some(name), exts, cfg.folder).path
            != SoundPath(cfg, b)
  {
    SoundFileNamesAgree(cfg, b);
    var f := App.SoundFile(b, cfg.buttonPins[b]);
    App.SoundFilePlain(b, cfg.buttonPins[b]);
    ExpandDefaultFolder(cfg.env, f);
    DefaultFolderJoin(f);
    var home := cfg.env["HOME"];
    assert home[..1] == "/";
    assert SoundPath(cfg, b)[0] == home[0] == '/';
    assert ("${HOME}/Pi3Ctrl/" + f)[0] == '$';
  }

  lemma DefaultFolderJoin(f: string)
    requires f != [] && f[0] != '/'
    ensures PathJoin(DefaultSoundFolder, f) == "${HOME}/Pi3Ctrl/" + f
  {
    assert f[..1] != "/";
    assert DefaultSoundFolder[|DefaultSoundFolder| - 1] == 'l';
  }

  /** Expanding a file path under the default folder puts `HOME`'s value in
      front of `/Pi3Ctrl/`. */
  lemma ExpandDefaultFolder(env: map<string, string>, f: string)
    requires f != [] && f[0] != '/'
    requires forall k :: 0 <= k < |f| ==> f[k] != '$'
    requires "HOME" in env
    ensures ExpandVars(env, PathJoin(DefaultSoundFolder, f)) == env["HOME"] + "/Pi3Ctrl/" + f
  {
    DefaultFolderJoin(f);
    var rest := "/Pi3Ctrl/" + f;
    assert "${HOME}/Pi3Ctrl/" + f == "${" + "HOME" + "}" + rest;
    forall k | 0 <= k < |rest| ensures rest[k] != '$' {
      if k >= 9 {
        assert rest[k] == f[k - 9];
      }
    }
    ExpandVarsPlain(env, rest);
    ExpandBraced(env, "HOME", rest);
  }

  // ---- the trigger row

  /** The mapped columns of the `Trigger` table (`database.py:24-26`). */
  const TriggerColumns: set<string> := {"id", "pin", "created"}

  /** The keywords `core.py:130` passes to the `Trigger` constructor. */
  const RowKeywords: seq<string> := ["button", "pin"]

  /** The outcome of the database code of a firing: the declarative
      constructor raises `TypeError` on a keyword that names no mapped column;
      otherwise the outcome is that of the commit. */
  function RowWrite(keywords: seq<string>, columns: set<string>, commit: Outcome): (o: Outcome)
    ensures (exists k :: 0 <= k < |keywords| && keywords[k] !in columns) ==> o == Raised
    ensures (forall k :: 0 <= k < |keywords| ==> keywords[k] in columns) ==> o == commit
  {
    if forall k :: 0 <= k < |keywords| ==> keywords[k] in columns then commit else Raised
  }

  /** As written, the table has no `button` column, so every accepted press
      raises in the database code: the command never runs, nothing is logged,
      and after the debounce threads the state is the one before the press. */
  lemma AsWrittenCycleLogsNothing(cfg: Config, s: State, b: nat, commit: Outcome, order: seq<nat>)
    requires Idle(cfg, s) && b < |cfg.buttonPins|
    requires multiset(order) == multiset(Buttons(|cfg.buttonPins|))
    ensures RowWrite(RowKeywords, TriggerColumns, commit) == Raised
    ensures Run(cfg, s, [Press(b), DbWrite(RowWrite(RowKeywords, TriggerColumns, commit))] + Rearms(order)) == s
  {
    assert RowKeywords[0] !in TriggerColumns;
    FailedWriteCycle(cfg, s, b, order);
  }

  /** With a `button` column in the table, a committed row is followed by
      the command, and one firing logs its row and its command. */
  lemma CorrectedCycleLogsPair(cfg: Config, s: State, b: nat, o: Outcome, order: seq<nat>)
    requires Idle(cfg, s) && b < |cfg.buttonPins|
    requires multiset(order) == multiset(Buttons(|cfg.buttonPins|))
    ensures RowWrite(RowKeywords, TriggerColumns + {"button"}, Completed) == Completed
    ensures Run(cfg, s, [Press(b), DbWrite(RowWrite(RowKeywords, TriggerColumns + {"button"}, Completed)),
                         CommandDone(o)] + Rearms(order))
            == s.(log := s.log + Pair(cfg, b))
  {
    assert forall k :: 0 <= k < |RowKeywords| ==> RowKeywords[k] in TriggerColumns + {"button"};
    FiringCycle(cfg, s, b, o, order);
  }
}
