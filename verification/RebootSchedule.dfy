/** The daily reboot: when it happens (internal/system/reboot.go), and the protocol by which the
    handlers wake the waiting loop through a channel of capacity 1 (internal/handler/system.go). */
module RebootSchedule {
  import opened Options
  import opened Validate

  // ----- the next occurrence

  /** Local time in nanoseconds, under a fixed UTC offset; 0 is a midnight. */
  const MINUTE := 60_000_000_000
  const DAY := 86_400_000_000_000

  function DigitValue(c: char): int {
    c as int - '0' as int
  }

  /** What the handler's regular expression accepts: HH:MM on a 24-hour clock. */
  predicate ValidTime(tod: string) {
    && |tod| == 5 && tod[2] == ':'
    && Digit(tod[0]) && Digit(tod[1]) && Digit(tod[3]) && Digit(tod[4])
    && (tod[0] < '2' || (tod[0] == '2' && tod[1] <= '3'))
    && tod[3] <= '5'
  }

  function MinuteOfDay(tod: string): (m: int)
    requires ValidTime(tod)
    ensures 0 <= m < 24 * 60
  {
    (DigitValue(tod[0]) * 10 + DigitValue(tod[1])) * 60 + DigitValue(tod[3]) * 10 + DigitValue(tod[4])
  }

  // ----- what a clock shows

  function TwoDigits(n: int): string
    requires 0 <= n < 100
  {
    [('0' as int + n / 10) as char, ('0' as int + n % 10) as char]
  }

  /** The instant begins a minute, and a 24-hour clock shows this hour and minute at it. */
  predicate Shows(t: int, hour: int, minute: int) {
    t % 86_400_000_000_000 == hour * 3_600_000_000_000 + minute * 60_000_000_000
  }

  /** The instant begins a minute for which a clock shows the text. */
  ghost predicate ShowsText(t: int, tod: string) {
    exists h, m | 0 <= h < 24 && 0 <= m < 60 :: Shows(t, h, m) && tod == TwoDigits(h) + ":" + TwoDigits(m)
  }

  /** The times that the handler accepts are the texts that a clock shows. */
  lemma ValidTimes(tod: string)
    ensures ValidTime(tod) <==> exists h, m | 0 <= h < 24 && 0 <= m < 60 :: tod == TwoDigits(h) + ":" + TwoDigits(m)
  {
    if ValidTime(tod) {
      var h, m := ClockOf(tod);
      assert tod == TwoDigits(h) + ":" + TwoDigits(m);
    }
  }

  lemma ClockOf(tod: string) returns (h: int, m: int)
    requires ValidTime(tod)
    ensures 0 <= h < 24 && 0 <= m < 60 && tod == TwoDigits(h) + ":" + TwoDigits(m)
    ensures MinuteOfDay(tod) == 60 * h + m
  {
    h := DigitValue(tod[0]) * 10 + DigitValue(tod[1]);
    m := DigitValue(tod[3]) * 10 + DigitValue(tod[4]);
  }

  lemma TextIsUnique(h: int, m: int, h': int, m': int)
    requires 0 <= h < 24 && 0 <= m < 60 && 0 <= h' < 24 && 0 <= m' < 60
    requires TwoDigits(h) + ":" + TwoDigits(m) == TwoDigits(h') + ":" + TwoDigits(m')
    ensures h == h' && m == m'
  {
    var s, t := TwoDigits(h) + ":" + TwoDigits(m), TwoDigits(h') + ":" + TwoDigits(m');
    assert s[0] == t[0] && s[1] == t[1] && s[3] == t[3] && s[4] == t[4];
  }

  /** An instant shows the text exactly when it lies at that minute of its day. */
  lemma ShowsExact(t: int, tod: string)
    requires ValidTime(tod)
    ensures ShowsText(t, tod) <==> t % DAY == MinuteOfDay(tod) * MINUTE
  {
    hide MinuteOfDay, ValidTime, TwoDigits;
    var h, m := ClockOf(tod);
    assert Shows(t, h, m) <==> t % DAY == MinuteOfDay(tod) * MINUTE;
    if ShowsText(t, tod) {
      var h', m' :| 0 <= h' < 24 && 0 <= m' < 60 && Shows(t, h', m') && tod == TwoDigits(h') + ":" + TwoDigits(m');
      TextIsUnique(h, m, h', m');
    }
  }

  method NextOccurrence(now: int, tod: string) returns (next: int)
    requires ValidTime(tod)
    ensures now <= next < now + 86_400_000_000_000
    ensures ShowsText(next, tod) && forall t | now <= t < next :: !ShowsText(t, tod)
  {
    hide MinuteOfDay, ValidTime, ShowsText;
    var offset := MinuteOfDay(tod) * MINUTE;
    next := now / DAY * DAY + offset;
    if now > next {
      next := next + DAY;
    }
    WithinADay(now, offset);
    ghost var n := next;
    forall t | now <= t < n ensures !ShowsText(t, tod) {
      FirstInDay(now, offset, t);
      ShowsExact(t, tod);
    }
    ShowsExact(next, tod);
  }

  lemma WithinADay(now: int, offset: int)
    requires 0 <= offset < DAY
    ensures var today := now / DAY * DAY + offset;
            var next := if now > today then today + DAY else today;
            now <= next < now + DAY && next % DAY == offset
  {
    var today := now / DAY * DAY + offset;
    assert today / DAY == now / DAY;
    assert (today + DAY) / DAY == now / DAY + 1;
  }

  /** Within one day only one instant has a given offset from midnight. */
  lemma FirstInDay(now: int, offset: int, t: int)
    requires 0 <= offset < DAY && now <= t
    requires var today := now / DAY * DAY + offset; t < if now > today then today + DAY else today
    ensures t % DAY != offset
  {
  }

  // ----- the wake-up protocol

  /** The watch loop: about to read the schedule, waiting for a signal because there is none, waiting
      for the timer or a signal, or past the reboot. */
  datatype Loop = Reading | Blocked | Armed(tod: string) | Rebooted

  /** `db` is the stored schedule, `pending` whether a signal is in the channel, `saving` how many
      savers have written but not signalled, `cancelling` how many cancellers have signalled but not
      deleted. */
  datatype State = State(db: Option<string>, pending: bool, loop: Loop, saving: nat, cancelling: nat)

  datatype Action =
    | SaveWrite(tod: string) | SaveSignal
    | CancelSignal | CancelDelete | CancelFails
    | LoopRead | LoopWake | TimerFires

  predicate Waiting(s: State) {
    s.loop.Blocked? || s.loop.Armed?
  }

  predicate Enabled(s: State, a: Action) {
    match a
    case SaveWrite(tod) => ValidTime(tod)
    case SaveSignal => s.saving > 0
    case CancelSignal => true
    case CancelDelete => s.cancelling > 0
    case CancelFails => s.cancelling > 0
    case LoopRead => s.loop.Reading?
    case LoopWake => Waiting(s) && s.pending
    case TimerFires => s.loop.Armed?
  }

  function Step(s: State, a: Action): State
    requires Enabled(s, a)
  {
    match a
    case SaveWrite(tod) => s.(db := Some(tod), saving := s.saving + 1)
    case SaveSignal => s.(pending := true, saving := s.saving - 1)
    case CancelSignal => s.(pending := true, cancelling := s.cancelling + 1)
    case CancelDelete => s.(db := None, cancelling := s.cancelling - 1)
    case CancelFails => s.(cancelling := s.cancelling - 1)
    case LoopRead => s.(loop := if s.db.Some? then Armed(s.db.value) else Blocked)
    case LoopWake => s.(pending := false, loop := Reading)
    case TimerFires => s.(loop := Rebooted)
  }

  /** The handlers and the loop as the program writes them: `done` records their atomic actions in
      order. Between two of them any action of another goroutine may happen. */
  class Control {
    var state: State
    ghost var done: seq<Action>

    constructor (db: Option<string>)
      ensures state == State(db, false, Reading, 0, 0) && Start(state) && done == []
    {
      state := State(db, false, Reading, 0, 0);
      done := [];
    }

    method Perform(a: Action)
      requires Enabled(state, a)
      modifies this
      ensures state == Step(old(state), a) && done == old(done) + [a]
    {
      state := Step(state, a);
      done := done + [a];
    }

    /** `POST /schedule`: the time is stored before the loop is signalled. */
    method Schedule(tod: string, dbOk: bool) returns (ok: bool)
      modifies this
      ensures ok == (ValidTime(tod) && dbOk)
      ensures ok ==> done == old(done) + [SaveWrite(tod), SaveSignal]
      ensures ok ==> state == old(state).(db := Some(tod), pending := true)
      ensures !ok ==> state == old(state) && done == old(done)
    {
      if !ValidTime(tod) || !dbOk {
        return false;
      }
      Perform(SaveWrite(tod));
      Perform(SaveSignal);
      return true;
    }

    /** `DELETE /schedule`: the loop is signalled before the row is deleted. */
    method CancelSchedule(dbOk: bool) returns (ok: bool)
      modifies this
      ensures ok == dbOk
      ensures done == old(done) + [CancelSignal, if dbOk then CancelDelete else CancelFails]
      ensures state == old(state).(db := if dbOk then None else old(state).db, pending := true)
    {
      Perform(CancelSignal);
      if !dbOk {
        Perform(CancelFails);
        return false;
      }
      Perform(CancelDelete);
      return true;
    }

    /** One round of `RebootWatchLoop`: read the schedule and wait. An armed loop reboots if its timer
        expires; when a signal is pending too the select takes either, and `timer` tells which. A blocked
        loop without a signal stays where it is. */
    method WatchRound(timer: bool)
      requires state.loop.Reading?
      modifies this
      ensures var read := Step(old(state), LoopRead);
              if read.loop.Armed? && (timer || !read.pending)
              then done == old(done) + [LoopRead, TimerFires] && state == read.(loop := Rebooted)
              else if read.pending
              then done == old(done) + [LoopRead, LoopWake] && state == read.(pending := false, loop := Reading)
              else done == old(done) + [LoopRead] && state == read
    {
      Perform(LoopRead);
      if state.loop.Armed? && (timer || !state.pending) {
        Perform(TimerFires);
      } else if state.pending {
        Perform(LoopWake);
      }
    }
  }

  /** A run: every action is enabled where it happens. */
  predicate Possible(s: State, run: seq<Action>)
    decreases |run|
  {
    run == [] || (Enabled(s, run[0]) && Possible(Step(s, run[0]), run[1..]))
  }

  function After(s: State, run: seq<Action>): State
    requires Possible(s, run)
    decreases |run|
  {
    if run == [] then s else After(Step(s, run[0]), run[1..])
  }

  predicate Start(s: State) {
    s.loop == Reading && !s.pending && s.saving == 0 && s.cancelling == 0
  }

  /** A waiting loop waits for what the database says. */
  predicate UpToDate(s: State) {
    && (s.loop.Armed? ==> s.db == Some(s.loop.tod))
    && (s.loop.Blocked? ==> s.db == None)
  }

  /** Nobody is about to wake the loop. */
  predicate Quiet(s: State) {
    !s.pending && s.saving == 0
  }

  predicate NoCancels(run: seq<Action>) {
    forall a <- run :: !a.CancelSignal? && !a.CancelDelete? && !a.CancelFails?
  }

  lemma {:induction false} SavesKeep(s: State, run: seq<Action>)
    requires Possible(s, run) && NoCancels(run)
    requires Quiet(s) ==> UpToDate(s)
    ensures Quiet(After(s, run)) ==> UpToDate(After(s, run))
    decreases |run|
  {
    if run != [] {
      assert !run[0].CancelSignal? && !run[0].CancelDelete? && !run[0].CancelFails?;
      SavesKeep(Step(s, run[0]), run[1..]);
    }
  }

  /** No lost wake-up: in any interleaving of savers and the loop, whenever no signal is pending and no
      saver is between its write and its signal, the waiting loop is armed with the stored time, or
      blocked on an empty schedule. */
  lemma NoLostWakeUp(s: State, run: seq<Action>)
    requires Start(s) && Possible(s, run) && NoCancels(run)
    ensures Quiet(After(s, run)) ==> UpToDate(After(s, run))
  {
    SavesKeep(s, run);
  }

  lemma {:induction false} AnyRunKeeps(s: State, run: seq<Action>)
    requires Possible(s, run)
    requires Quiet(s) ==> UpToDate(s) || (s.loop.Armed? && s.db == None)
    ensures var t := After(s, run); Quiet(t) ==> UpToDate(t) || (t.loop.Armed? && t.db == None)
    decreases |run|
  {
    if run != [] {
      AnyRunKeeps(Step(s, run[0]), run[1..]);
    }
  }

  /** With cancellations the only way to be out of date is to be armed for a cancelled reboot: a saved
      schedule is never missed. */
  lemma OnlyCancelsAreMissed(s: State, run: seq<Action>)
    requires Start(s) && Possible(s, run)
    ensures var t := After(s, run); Quiet(t) && !UpToDate(t) ==> t.loop.Armed? && t.db == None
  {
    AnyRunKeeps(s, run);
  }

  // ----- cancel signals before it deletes

  predicate LoopAction(a: Action) {
    a.LoopRead? || a.LoopWake? || a.TimerFires?
  }

  predicate LoopOnly(run: seq<Action>) {
    forall a <- run :: LoopAction(a)
  }

  /** What is left of the loop's own steps, one phase after the other; a waiting loop that is armed may
      also fire its timer, whether or not a signal is pending. */
  lemma WaitingAlone(s: State, run: seq<Action>)
    requires Waiting(s) && !s.pending && Possible(s, run) && LoopOnly(run)
    ensures After(s, run) == if TimerFires in run then s.(loop := Rebooted) else s
    ensures TimerFires !in run <==> run == []
  {
    if run != [] {
      assert LoopAction(run[0]);
      RebootedAlone(Step(s, run[0]), run[1..]);
    }
  }

  lemma RebootedAlone(s: State, run: seq<Action>)
    requires s.loop.Rebooted? && Possible(s, run) && LoopOnly(run)
    ensures run == [] && After(s, run) == s
  {
    assert run != [] ==> LoopAction(run[0]);
  }

  function ReadLoop(s: State): Loop {
    if s.db.Some? then Armed(s.db.value) else Blocked
  }

  lemma ReadingAlone(s: State, run: seq<Action>)
    requires s.loop.Reading? && !s.pending && Possible(s, run) && LoopOnly(run)
    ensures After(s, run) ==
            s.(loop := if TimerFires in run then Rebooted else if run == [] then Reading else ReadLoop(s))
    ensures TimerFires !in run ==> |run| <= 1
  {
    if run != [] {
      assert LoopAction(run[0]);
      WaitingAlone(Step(s, run[0]), run[1..]);
    }
  }

  /** A waiting loop with a signal: it wakes, reads and waits again, unless the timer comes first. */
  lemma SignalledAlone(s: State, run: seq<Action>)
    requires Waiting(s) && s.pending && Possible(s, run) && LoopOnly(run)
    ensures TimerFires in run ==> After(s, run).loop == Rebooted && After(s, run).db == s.db
    ensures TimerFires !in run ==>
              && |run| <= 2
              && After(s, run) == if run == [] then s
                                  else s.(pending := false, loop := if |run| == 1 then Reading else ReadLoop(s))
  {
    if run != [] {
      assert LoopAction(run[0]);
      if run[0].TimerFires? {
        RebootedAlone(Step(s, run[0]), run[1..]);
      } else {
        ReadingAlone(Step(s, run[0]), run[1..]);
        assert run == [run[0]] + run[1..];
      }
    }
  }

  lemma ReadingSignalledAlone(s: State, run: seq<Action>)
    requires s.loop.Reading? && s.pending && Possible(s, run) && LoopOnly(run)
    ensures TimerFires in run ==> After(s, run).loop == Rebooted && After(s, run).db == s.db
    ensures TimerFires !in run ==>
              && |run| <= 3
              && After(s, run) == if run == [] then s else if |run| == 1 then s.(loop := ReadLoop(s))
                                  else s.(pending := false, loop := if |run| == 2 then Reading else ReadLoop(s))
  {
    if run != [] {
      assert LoopAction(run[0]);
      SignalledAlone(Step(s, run[0]), run[1..]);
      assert run == [run[0]] + run[1..];
    }
  }

  lemma {:induction false} AfterConcat(s: State, a: seq<Action>, b: seq<Action>)
    requires Possible(s, a + b)
    ensures Possible(s, a) && Possible(After(s, a), b) && After(s, a + b) == After(After(s, a), b)
    decreases |a|
  {
    if a == [] {
      assert a + b == b;
    } else {
      assert (a + b)[0] == a[0] && (a + b)[1..] == a[1..] + b;
      AfterConcat(Step(s, a[0]), a[1..], b);
    }
  }

  /** A cancelled schedule stays without effect: the loop has not rebooted, and if it is still armed a
      signal will wake it. */
  predicate Cancelled(s: State) {
    s.db == None && s.loop != Rebooted && (s.loop.Armed? ==> s.pending)
  }

  function CancelRun(mid: seq<Action>, tail: seq<Action>): seq<Action> {
    [CancelSignal] + (mid + ([CancelDelete] + tail))
  }

  /** How many steps of the loop after the signal make it read the old schedule and wait again. */
  function StepsToRearm(s: State): nat {
    if s.loop.Reading? then 3 else 2
  }

  /** A cancellation, with any steps of the loop between its signal and its deletion and any steps after
      it: it takes effect exactly when the timer fires in neither part and the loop does not come round
      to waiting on the old schedule before the deletion. A loop that then has nothing left to do is
      blocked. */
  lemma CancelExact(s: State, mid: seq<Action>, tail: seq<Action>)
    requires s.db.Some? && s.loop != Rebooted
    requires Possible(s, CancelRun(mid, tail)) && LoopOnly(mid) && LoopOnly(tail)
    ensures var t := After(s, CancelRun(mid, tail));
            && (Cancelled(t) <==> TimerFires !in mid && TimerFires !in tail && |mid| < StepsToRearm(s))
            && (Cancelled(t) && Waiting(t) && !t.pending ==> t.loop == Blocked)
  {
    hide Possible, After, LoopOnly, LoopAction;
    var s1 := Step(s, CancelSignal);
    CancelParts(s, mid, tail);
    var m := After(s1, mid);
    if s.loop.Reading? {
      ReadingSignalledAlone(s1, mid);
    } else {
      SignalledAlone(s1, mid);
    }
    var d := Step(m, CancelDelete);
    CancelTail(d, tail);
  }

  lemma CancelParts(s: State, mid: seq<Action>, tail: seq<Action>)
    requires Possible(s, CancelRun(mid, tail)) && LoopOnly(mid)
    ensures var s1 := Step(s, CancelSignal);
            && Possible(s1, mid) && Enabled(After(s1, mid), CancelDelete)
            && Possible(Step(After(s1, mid), CancelDelete), tail)
            && After(s, CancelRun(mid, tail)) == After(Step(After(s1, mid), CancelDelete), tail)
  {
    var rest := mid + ([CancelDelete] + tail);
    var s1 := Step(s, CancelSignal);
    assert CancelRun(mid, tail)[0] == CancelSignal && CancelRun(mid, tail)[1..] == rest;
    AfterConcat(s1, mid, [CancelDelete] + tail);
    assert ([CancelDelete] + tail)[0] == CancelDelete && ([CancelDelete] + tail)[1..] == tail;
  }

  /** The loop after the deletion. */
  lemma CancelTail(d: State, tail: seq<Action>)
    requires d.db == None && Possible(d, tail) && LoopOnly(tail)
    ensures var t := After(d, tail);
            && (Cancelled(t) <==> TimerFires !in tail && Cancelled(d))
            && (Cancelled(t) && Waiting(t) && !t.pending ==> t.loop == Blocked)
  {
    hide Possible, After, LoopOnly, LoopAction;
    if d.loop.Rebooted? {
      RebootedAlone(d, tail);
    } else if d.loop.Reading? && d.pending {
      ReadingSignalledAlone(d, tail);
    } else if d.loop.Reading? {
      ReadingAlone(d, tail);
    } else if d.pending {
      SignalledAlone(d, tail);
    } else {
      WaitingAlone(d, tail);
    }
  }

  /** A run in which the user cancels and the router reboots all the same. */
  lemma CancelledRebootHappens(tod: string)
    requires ValidTime(tod)
    ensures var s := State(Some(tod), false, Reading, 0, 0);
            var run := [LoopRead, CancelSignal, LoopWake, LoopRead, CancelDelete];
            && Start(s) && Possible(s, run + [TimerFires])
            && Possible(s, run) && After(s, run) == State(None, false, Armed(tod), 0, 0)
  {
    var s := State(Some(tod), false, Reading, 0, 0);
    var r0 := [LoopRead, CancelSignal, LoopWake, LoopRead, CancelDelete, TimerFires];
    var s1 := Step(s, LoopRead);
    var s2 := Step(s1, CancelSignal);
    var s3 := Step(s2, LoopWake);
    var s4 := Step(s3, LoopRead);
    var s5 := Step(s4, CancelDelete);
    var run := [LoopRead, CancelSignal, LoopWake, LoopRead, CancelDelete];
    assert run + [TimerFires] == r0;
    assert r0[1..][1..][1..][1..][1..] == [TimerFires] && [TimerFires][1..] == [];
    assert Possible(Step(s5, TimerFires), []);
    assert Possible(s5, [TimerFires]);
    assert Possible(s4, r0[1..][1..][1..][1..]) && Possible(s3, r0[1..][1..][1..]);
    assert Possible(s2, r0[1..][1..]) && Possible(s1, r0[1..]);
    assert run[1..][1..][1..][1..][1..] == [];
    assert Possible(s4, run[1..][1..][1..][1..]) && Possible(s3, run[1..][1..][1..]);
    assert Possible(s2, run[1..][1..]) && Possible(s1, run[1..]);
    assert After(s4, run[1..][1..][1..][1..]) == s5;
    assert After(s2, run[1..][1..]) == After(s3, run[1..][1..][1..]) == s5;
  }

  /** And one in which the loop takes no step between the signal and the deletion: the timer was due. */
  lemma DueRebootHappens(tod: string)
    requires ValidTime(tod)
    ensures var s := State(Some(tod), false, Armed(tod), 0, 0);
            && Possible(s, CancelRun([], [TimerFires]))
            && After(s, CancelRun([], [TimerFires])) == State(None, true, Rebooted, 0, 0)
  {
    var s := State(Some(tod), false, Armed(tod), 0, 0);
    var run := CancelRun([], [TimerFires]);
    assert run == [CancelSignal, CancelDelete, TimerFires];
    assert run[1..] == [CancelDelete, TimerFires] && run[1..][1..] == [TimerFires] && [TimerFires][1..] == [];
    var s2 := Step(Step(s, CancelSignal), CancelDelete);
    assert Possible(Step(s2, TimerFires), []) && Possible(s2, [TimerFires]);
    assert Possible(Step(s, CancelSignal), run[1..]);
    assert After(s2, [TimerFires]) == Step(s2, TimerFires);
  }
}
