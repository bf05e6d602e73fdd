/** The two background loops: the eviction thread and the wait for shutdown. */
module Background {
  import opened Types

  // ---------------------------------------------------------------- src/state/eviction.rs

  /** What the eviction thread does that the outside can see. */
  datatype Act = Load(raised: bool) | Sleep | Sweep

  const TICKS_PER_SWEEP := 60

  /** One-second sleeps since the last sweep, or since the start. */
  function SleepsSince(log: seq<Act>): nat {
    if log == [] then 0
    else match log[|log| - 1]
         case Sweep => 0
         case Sleep => SleepsSince(log[..|log| - 1]) + 1
         case Load(b) => SleepsSince(log[..|log| - 1])
  }

  /** Every sweep comes after a full minute of ticks. */
  ghost predicate Paced(log: seq<Act>) {
    forall k | 0 <= k < |log| && log[k] == Sweep :: SleepsSince(log[..k]) == TICKS_PER_SWEEP
  }

  /** Every sleep and every sweep directly follows a look at the flag that found it down. */
  ghost predicate Guarded(log: seq<Act>) {
    forall k | 0 <= k < |log| && !log[k].Load? :: k > 0 && log[k - 1] == Load(false)
  }

  /** Once raised, the flag stays up. */
  ghost predicate Latched(flags: seq<bool>) {
    forall i, j | 0 <= i < j < |flags| && flags[i] :: flags[j]
  }

  /** The values the looks at the flag returned. */
  function Looks(log: seq<Act>): seq<bool> {
    if log == [] then []
    else Looks(log[..|log| - 1]) + if log[|log| - 1].Load? then [log[|log| - 1].raised] else []
  }

  /** A round of the loop looks at the flag once before the minute, once per tick, and once after it. */
  const LOOKS_PER_ROUND := TICKS_PER_SWEEP + 2

  /** Where in its round the thread is after `n` looks. */
  function Place(n: nat): nat {
    n % LOOKS_PER_ROUND
  }

  /** What the thread has done after `n` looks that all found the flag down: the first look of a round
      leads to nothing yet, the last one to a sweep, every other one to a tick. */
  function Script(n: nat): seq<Act> {
    if n == 0 then []
    else
      var look := Place(n);
      Script(n - 1) + [Load(false)] + (if look == 0 then [Sweep] else if look == 1 then [] else [Sleep])
  }

  /** The looks that find the flag up: one, or a second one when the first came within the minute. */
  function Farewell(n: nat, left: nat): seq<Act> {
    if left == 0 then []
    else if left > 1 && 1 <= Place(n) <= TICKS_PER_SWEEP then [Load(true), Load(true)]
    else [Load(true)]
  }

  /** How many looks find the flag down before one finds it up. */
  function Downs(flags: seq<bool>): (n: nat)
    ensures n <= |flags|
  {
    if flags == [] || flags[0] then 0 else 1 + Downs(flags[1..])
  }

  lemma {:induction false} DownsAre(flags: seq<bool>, n: nat)
    requires n <= |flags| && (n < |flags| ==> flags[n]) && forall i | 0 <= i < n :: !flags[i]
    ensures Downs(flags) == n
  {
    if n == 0 {
    } else {
      DownsAre(flags[1..], n - 1);
    }
  }

  lemma SleepsSnoc(log: seq<Act>, a: Act)
    ensures SleepsSince(log + [a]) == match a case Sweep => 0 case Sleep => SleepsSince(log) + 1 case Load(b) => SleepsSince(log)
  {
    assert (log + [a])[..|log|] == log;
  }

  lemma LooksSnoc(log: seq<Act>, a: Act)
    ensures Looks(log + [a]) == Looks(log) + if a.Load? then [a.raised] else []
  {
    assert (log + [a])[..|log|] == log;
  }

  function Sweeps(log: seq<Act>): nat {
    if log == [] then 0 else Sweeps(log[..|log| - 1]) + if log[|log| - 1] == Sweep then 1 else 0
  }

  lemma SweepsSnoc(log: seq<Act>, a: Act)
    ensures Sweeps(log + [a]) == Sweeps(log) + if a == Sweep then 1 else 0
  {
    assert (log + [a])[..|log|] == log;
  }

  lemma PacedMeans(log: seq<Act>)
    ensures Paced(log) <==> forall k | 0 <= k < |log| && log[k] == Sweep :: SleepsSince(log[..k]) == 60
  {
    hide SleepsSince;
  }

  lemma PacedSnoc(log: seq<Act>, a: Act)
    requires Paced(log) && (a == Sweep ==> SleepsSince(log) == TICKS_PER_SWEEP)
    ensures Paced(log + [a])
  {
    hide SleepsSince;
    var l := log + [a];
    forall k | 0 <= k < |l| && l[k] == Sweep ensures SleepsSince(l[..k]) == TICKS_PER_SWEEP {
      assert l[..k] == log[..k];
      if k == |log| { assert log[..k] == log; }
    }
  }

  lemma GuardedSnoc(log: seq<Act>, a: Act)
    requires Guarded(log) && (a.Load? || (log != [] && log[|log| - 1] == Load(false)))
    ensures Guarded(log + [a])
  {
  }

  /** `downs` times false, then `ups` times true. */
  ghost predicate Bits(flags: seq<bool>, downs: nat, ups: nat) {
    |flags| == downs + ups && forall i | 0 <= i < |flags| :: flags[i] <==> i >= downs
  }

  /** Where the thread is after `n` looks: every finished round has swept once, and the ticks since are
      those of the round under way. The script obeys both rules. */
  lemma {:induction false} ScriptMeans(n: nat)
    ensures var log, look := Script(n), Place(n);
            && Paced(log) && Guarded(log)
            && Bits(Looks(log), n, 0)
            && Sweeps(log) == n / LOOKS_PER_ROUND
            && SleepsSince(log) == if look == 0 then 0 else look - 1
  {
    hide SleepsSince, Looks, Sweeps, Paced, Guarded;
    if n == 0 {
      NothingYet();
    } else {
      ScriptMeans(n - 1);
      var looked, look := Script(n - 1) + [Load(false)], Place(n);
      RoundStep(n);
      Snoc(Script(n - 1), Load(false));
      if look == 0 {
        Snoc(looked, Sweep);
      } else if look != 1 {
        Snoc(looked, Sleep);
      } else {
        assert Script(n) == looked;
      }
    }
  }

  lemma NothingYet()
    ensures Paced([]) && Guarded([]) && Looks([]) == [] && Sweeps([]) == 0 && SleepsSince([]) == 0
  {
  }

  lemma RoundStep(n: nat)
    requires n > 0
    ensures var look, before := Place(n), Place(n - 1);
            && before == (if look == 0 then LOOKS_PER_ROUND - 1 else look - 1)
            && n / LOOKS_PER_ROUND == (n - 1) / LOOKS_PER_ROUND + if look == 0 then 1 else 0
  {
  }

  lemma Snoc(log: seq<Act>, a: Act)
    requires Paced(log) && Guarded(log)
    requires a == Sweep ==> SleepsSince(log) == TICKS_PER_SWEEP
    requires !a.Load? ==> log != [] && log[|log| - 1] == Load(false)
    ensures Paced(log + [a]) && Guarded(log + [a])
    ensures Looks(log + [a]) == Looks(log) + if a.Load? then [a.raised] else []
    ensures Sweeps(log + [a]) == Sweeps(log) + if a == Sweep then 1 else 0
    ensures SleepsSince(log + [a]) == match a case Sweep => 0 case Sleep => SleepsSince(log) + 1 case Load(b) => SleepsSince(log)
  {
    hide Paced, Guarded, Looks, SleepsSince, Sweeps;
    PacedSnoc(log, a);
    GuardedSnoc(log, a);
    SleepsSnoc(log, a);
    LooksSnoc(log, a);
    SweepsSnoc(log, a);
  }

  /** A log that obeys the rules, with so many looks and sweeps. */
  ghost predicate Obeys(log: seq<Act>, downs: nat, ups: nat, sweeps: nat) {
    Paced(log) && Guarded(log) && Bits(Looks(log), downs, ups) && Sweeps(log) == sweeps
  }

  lemma OneLookUp(log: seq<Act>, downs: nat, ups: nat, sweeps: nat)
    requires Obeys(log, downs, ups, sweeps)
    ensures Obeys(log + [Load(true)], downs, ups + 1, sweeps)
  {
    hide SleepsSince, Looks, Sweeps, Paced, Guarded;
    Snoc(log, Load(true));
  }

  /** The looks that end the thread change nothing of that. */
  lemma FarewellMeans(n: nat, left: nat)
    ensures Obeys(Script(n) + Farewell(n, left), n, |Farewell(n, left)|, n / LOOKS_PER_ROUND)
  {
    hide Obeys, Script, Place;
    var (log, sweeps) := (Script(n), n / LOOKS_PER_ROUND);
    ScriptObeys(n);
    OneLookUp(log, n, 0, sweeps);
    OneLookUp(log + [Load(true)], n, 1, sweeps);
    assert log + [Load(true), Load(true)] == log + [Load(true)] + [Load(true)];
    assert log + [] == log;
  }

  lemma ScriptObeys(n: nat)
    ensures Obeys(Script(n), n, 0, n / LOOKS_PER_ROUND)
  {
    hide Paced, Guarded, Bits, Looks, Sweeps, SleepsSince;
    ScriptMeans(n);
  }

  /** All the thread does when its looks at the flag return `flags`. */
  function Schedule(flags: seq<bool>): seq<Act> {
    Script(Downs(flags)) + Farewell(Downs(flags), |flags| - Downs(flags))
  }

  /** Whenever the flag goes up, the schedule sleeps and sweeps in time before that, one sweep for
      every full round of looks, does nothing unguarded, and ends only at a look that found it up. */
  lemma {:induction false} ScheduleMeans(flags: seq<bool>)
    requires Latched(flags)
    ensures Paced(Schedule(flags)) && Guarded(Schedule(flags))
    ensures Looks(Schedule(flags)) <= flags
    ensures Looks(Schedule(flags)) == flags || true in Looks(Schedule(flags))
    ensures Sweeps(Schedule(flags)) == Downs(flags) / 62
    ensures forall k | 0 <= k < |Schedule(flags)| && Schedule(flags)[k] == Sweep :: SleepsSince(Schedule(flags)[..k]) == 60
  {
    PacedMeans(Schedule(flags));
    hide SleepsSince, Looks, Sweeps, Paced, Guarded, Script;
    DownsSplit(flags);
    FarewellMeans(Downs(flags), |flags| - Downs(flags));
    BitsOfLatched(flags, Looks(Schedule(flags)), Downs(flags));
  }

  lemma BitsOfLatched(flags: seq<bool>, looks: seq<bool>, n: nat)
    requires Latched(flags) && n <= |flags| && (n < |flags| ==> flags[n]) && forall i | 0 <= i < n :: !flags[i]
    requires n <= |looks| <= |flags| && Bits(looks, n, |looks| - n) && (|looks| == n ==> |flags| == n)
    ensures looks <= flags && (looks == flags || true in looks)
  {
    if n < |looks| { assert looks[n]; }
  }

  lemma {:induction false} DownsSplit(flags: seq<bool>)
    ensures forall i | 0 <= i < Downs(flags) :: !flags[i]
    ensures Downs(flags) < |flags| ==> flags[Downs(flags)]
  {
    if flags == [] || flags[0] {
    } else {
      DownsSplit(flags[1..]);
      assert forall i | 0 <= i < Downs(flags) :: flags[i] == if i == 0 then false else flags[1..][i - 1];
    }
  }

  /** What one more look that finds the flag down adds. */
  lemma ScriptNext(log: seq<Act>, n: nat)
    requires log == Script(n)
    ensures Place(n + 1) == (if Place(n) == LOOKS_PER_ROUND - 1 then 0 else Place(n) + 1)
    ensures Place(n) == 0 ==> log + [Load(false)] == Script(n + 1)
    ensures 1 <= Place(n) <= TICKS_PER_SWEEP ==> log + [Load(false)] + [Sleep] == Script(n + 1)
    ensures Place(n) == LOOKS_PER_ROUND - 1 ==> log + [Load(false)] + [Sweep] == Script(n + 1)
  {
    RoundStep(n + 1);
  }

  /** How the log ends, one look at a time. */
  lemma FarewellIs(log: seq<Act>, n: nat, left: nat)
    ensures left == 0 ==> log + Farewell(n, left) == log
    ensures left == 1 ==> log + Farewell(n, left) == log + [Load(true)]
    ensures left > 1 ==>
              log + Farewell(n, left) ==
              if 1 <= Place(n) <= TICKS_PER_SWEEP then log + [Load(true)] + [Load(true)] else log + [Load(true)]
  {
  }

  lemma StaysUp(flags: seq<bool>, i: nat)
    requires Latched(flags) && i + 1 < |flags| && flags[i]
    ensures flags[i + 1]
  {
  }

  /** The inner loop: one-second ticks until the minute is over or the flag is found up. */
  method SleepAMinute(flags: seq<bool>, before: seq<Act>, from: nat) returns (log: seq<Act>, pos: nat)
    requires from <= |flags| && Place(from) == 1 && before == Script(from)
    ensures from <= pos <= |flags| && 1 <= Place(pos) <= TICKS_PER_SWEEP + 1
    ensures forall i | from <= i < pos :: !flags[i]
    ensures pos < |flags| && Place(pos) <= TICKS_PER_SWEEP ==> flags[pos]
    ensures log == Script(pos) + if pos < |flags| && Place(pos) <= TICKS_PER_SWEEP then [Load(true)] else []
  {
    hide Script, Place;
    log, pos := before, from;
    var remaining := TICKS_PER_SWEEP;
    while remaining > 0 && pos < |flags|
      invariant 0 <= remaining <= TICKS_PER_SWEEP
      invariant from <= pos <= |flags| && Place(pos) == 1 + TICKS_PER_SWEEP - remaining
      invariant log == Script(pos) && forall i | from <= i < pos :: !flags[i]
      decreases remaining
    {
      ScriptNext(log, pos);
      log := log + [Load(flags[pos])];
      if flags[pos] { break; }
      log := log + [Sleep];
      remaining := remaining - 1;
      pos := pos + 1;
    }
  }

  /** One round of the outer loop; `on` says that it goes on to the next. */
  method Round(flags: seq<bool>, before: seq<Act>, from: nat) returns (log: seq<Act>, pos: nat, on: bool)
    requires Latched(flags) && from < |flags| && Place(from) == 0 && before == Script(from)
    ensures from <= pos <= |flags| && forall i | from <= i < pos :: !flags[i]
    ensures on ==> pos > from && Place(pos) == 0 && log == Script(pos)
    ensures !on ==> (pos < |flags| ==> flags[pos]) && log == Script(pos) + Farewell(pos, |flags| - pos)
  {
    hide Script, Latched, Place, Farewell;
    ScriptNext(before, from);
    log, pos := before + [Load(flags[from])], from;
    FarewellIs(before, from, |flags| - from);
    if flags[from] { return log, pos, false; }
    log, pos := SleepAMinute(flags, log, from + 1);
    FarewellIs(Script(pos), pos, |flags| - pos);
    // A look that found the flag up within the minute is already in the log.
    var next := if Place(pos) <= TICKS_PER_SWEEP then pos + 1 else pos;
    if next >= |flags| { return log, pos, false; }
    if next == pos { ScriptNext(log, pos); } else { StaysUp(flags, pos); }
    log := log + [Load(flags[next])];
    if flags[next] { return log, pos, false; }
    return log + [Sweep], next + 1, true;
  }

  /** The thread, for any sequence of values its looks at the shutdown flag return, ending when it
      stops or when the observed values run out, does precisely what the schedule says. */
  method EvictionThread(flags: seq<bool>) returns (log: seq<Act>)
    requires Latched(flags)
    ensures log == Schedule(flags)
  {
    log := [];
    var pos, on := 0, true;
    assert log == Script(0) && Place(0) == 0;
    FarewellIs(Script(|flags|), |flags|, 0);
    hide Script, Downs, Latched, Place, Farewell;
    while on && pos < |flags|
      invariant 0 <= pos <= |flags| && forall i | 0 <= i < pos :: !flags[i]
      invariant on ==> Place(pos) == 0 && log == Script(pos)
      invariant !on ==> (pos < |flags| ==> flags[pos]) && log == Script(pos) + Farewell(pos, |flags| - pos)
      decreases on, |flags| - pos
    {
      log, pos, on := Round(flags, log, pos);
    }
    DownsAre(flags, pos);
  }

  /** From the moment the flag goes up, wherever that falls, the thread does at most one more thing:
      the sleep or the sweep it was about to do. */
  lemma AtMostOneMore(log: seq<Act>, raisedAt: nat, k: nat)
    requires Guarded(log)
    requires forall i | raisedAt <= i < |log| && log[i].Load? :: log[i].raised
    requires raisedAt <= k < |log| && !log[k].Load?
    ensures k == raisedAt
  {
    assert k > 0 && log[k - 1] == Load(false);
  }

  // ---------------------------------------------------------------- src/main.rs

  /** One turn of the poll loop: whether a signal byte was read, whether the FUSE thread has
      finished, and whether an unmount probe would succeed. */
  datatype Poll = Signal(finished: bool, unmounts: bool) | Quiet(finished: bool, unmounts: bool)

  datatype ShutdownAction = ForceUnmount | ExternalUnmount

  function Signals(polls: seq<Poll>, n: nat): nat
    requires n <= |polls|
  {
    if n == 0 then 0 else Signals(polls, n - 1) + if polls[n - 1].Signal? then 1 else 0
  }

  /** Timeouts after the first signal. */
  function TicksAfterSignal(polls: seq<Poll>, n: nat): nat
    requires n <= |polls|
  {
    if n == 0 then 0
    else TicksAfterSignal(polls, n - 1) + if polls[n - 1].Quiet? && Signals(polls, n - 1) > 0 then 1 else 0
  }

  /** Event `k` is the first signal, and its probe found the mount busy. */
  ghost predicate BusyAtFirstSignal(polls: seq<Poll>, k: nat) {
    && k < |polls|
    && polls[k] == Signal(false, false)
    && Signals(polls, k) == 0
  }

  /** A signal after the first. */
  predicate Forces(polls: seq<Poll>, k: nat)
    requires k < |polls|
  {
    polls[k].Signal? && Signals(polls, k) > 0
  }

  /** Whether the mount is probed at poll `k`: at the first signal and at every fifth timeout after
      it, unless the session has finished. */
  predicate Probes(polls: seq<Poll>, k: nat)
    requires k < |polls|
  {
    && !polls[k].finished
    && (if polls[k].Signal? then Signals(polls, k) == 0
        else Signals(polls, k) > 0 && TicksAfterSignal(polls, k + 1) % 5 == 0)
  }

  /** Whether poll `k` finds the mount gone: the session finished, or a probe succeeded. */
  predicate Ends(polls: seq<Poll>, k: nat)
    requires k < |polls|
  {
    !Forces(polls, k) && (polls[k].finished || (Probes(polls, k) && polls[k].unmounts))
  }

  function ProbeCount(polls: seq<Poll>, n: nat): nat
    requires n <= |polls|
  {
    if n == 0 then 0 else ProbeCount(polls, n - 1) + if Probes(polls, n - 1) then 1 else 0
  }

  /** The wait over any sequence of polls; None when the sequence ends with the loop still waiting.
      It ends at the first poll that forces or finds the mount gone, and for that reason. */
  method WaitForShutdown(polls: seq<Poll>) returns (action: Option<ShutdownAction>, used: nat, probes: nat)
    ensures used <= |polls|
    ensures action.None? ==> used == |polls|
    ensures action == Some(ForceUnmount) <==> used > 0 && Forces(polls, used - 1)
    ensures action == Some(ExternalUnmount) <==> used > 0 && Ends(polls, used - 1)
    ensures forall k | 0 <= k < used - 1 :: !Forces(polls, k) && !Ends(polls, k)
    ensures action == Some(ForceUnmount) <==> Signals(polls, used) == 2
    ensures Signals(polls, used) <= 2
    ensures action == Some(ForceUnmount) ==> exists k: nat :: BusyAtFirstSignal(polls, k) && k < used
    ensures probes > 0 ==> Signals(polls, used) > 0
    ensures probes == ProbeCount(polls, used) <= 1 + TicksAfterSignal(polls, used) / 5
  {
    var firstSignalReceived, pollTicks := false, 0;
    ghost var first := 0;
    used, probes := 0, 0;
    while used < |polls|
      invariant used <= |polls|
      invariant Signals(polls, used) == if firstSignalReceived then 1 else 0
      invariant firstSignalReceived ==> BusyAtFirstSignal(polls, first) && first < used
      invariant pollTicks == TicksAfterSignal(polls, used)
      invariant probes == ProbeCount(polls, used) == if firstSignalReceived then 1 + pollTicks / 5 else 0
      invariant !firstSignalReceived ==> pollTicks == 0
      invariant forall k | 0 <= k < used :: !Forces(polls, k) && !Ends(polls, k)
    {
      var poll := polls[used];
      used := used + 1;
      if poll.Signal? {
        if firstSignalReceived {
          return Some(ForceUnmount), used, probes;
        }
        if poll.finished {
          return Some(ExternalUnmount), used, probes;
        }
        probes := probes + 1;
        if poll.unmounts {
          return Some(ExternalUnmount), used, probes;
        }
        firstSignalReceived := true;
        first := used - 1;
        continue;
      }
      if poll.finished {
        return Some(ExternalUnmount), used, probes;
      }
      if firstSignalReceived {
        pollTicks := pollTicks + 1;
        if pollTicks % 5 == 0 {
          probes := probes + 1;
          if poll.unmounts {
            return Some(ExternalUnmount), used, probes;
          }
        }
      }
    }
    return None, used, probes;
  }
}
