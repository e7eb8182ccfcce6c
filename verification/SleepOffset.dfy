/** The sleep offset behind mach_continuous_time, updated and read by any number of threads. */
module SleepOffset {
  import opened MachTime

  /** Mach times, and differences of times of day in mach units, stay below 2^62 (146 years in nanoseconds). */
  const LIMIT: int := 0x4000_0000_0000_0000

  /** 1000000 / MAX_DRIFT_PPM */
  const DRIFT: nat := 10_000

  /**
   What one attempt collects: time since boot in mach units, mach time before and after, and five seconds in mach
   units.
   */
  datatype Sample = Sample(toddiff: int, before: u64, after: u64, five: int) {
    predicate Plausible() {
      0 <= toddiff < LIMIT && before < LIMIT && after < LIMIT && 0 <= five < LIMIT
    }

    /** The raw offset. */
    function Offset(): int {
      toddiff - (before + after) / 2
    }
  }

  /** minsleepadj, from the mach time of the sample last used; the difference is unsigned. */
  function Allowance(s: Sample, lastBefore: u64): int {
    var drift := (s.before - lastBefore) % W64 / DRIFT;
    if drift > s.five then drift else s.five
  }

  /** The static variables: sleep_offset_valid, sleep_offset, raw_offset, first_offset and sleep_info.mach_before. */
  datatype Statics = Statics(valid: bool, offset: u64, raw: int, first: int, before: u64)

  const INITIAL: Statics := Statics(false, 0, 0, 0, 0)

  /** The baseline: the first negative raw offset. */
  function First(st: Statics, s: Sample): int {
    if st.first == 0 && s.Offset() < 0 then s.Offset() else st.first
  }

  /** The section under the lock. Both sides of the comparison are unsigned. */
  function Updated(st: Statics, s: Sample, adj: int): Statics {
    var first := First(st, s);
    var diff := s.Offset() - first;
    var st' := st.(raw := s.Offset(), first := first, valid := true);
    if diff % W64 > (st.offset + adj) % W64 then st'.(offset := diff % W64, before := s.before) else st'
  }

  /** What collecting the sample gives: the sample, a boot time of the wrong length, or another failure. */
  datatype Collected = Got(s: Sample) | BadLength | Failed {
    /** Garbage that no retry would mend. */
    predicate Garbage() {
      BadLength? || (Got? && s.toddiff < 0)
    }
  }

  /** One attempt: nothing is tried again after garbage, and nothing else is touched by a failure. */
  function Attempted(st: Statics, c: Collected): Statics {
    if c.Failed? then st
    else if c.Garbage() then st.(valid := true)
    else Updated(st, c.s, Allowance(c.s, st.before))
  }

  /** One thread's view. */
  class Offsets {
    var valid: bool
    var offset: u64
    var raw: int
    var first: int
    var before: u64

    function Value(): Statics
      reads this
    {
      Statics(valid, offset, raw, first, before)
    }

    constructor ()
      ensures Value() == INITIAL
    {
      valid, offset, raw, first, before := false, 0, 0, 0, 0;
    }

    /** The section under the lock. */
    method Update(s: Sample, minsleepadj: int)
      modifies this
      ensures Value() == Updated(old(Value()), s, minsleepadj)
    {
      raw := s.Offset();
      if first == 0 && s.Offset() < 0 {
        first := s.Offset();
      }
      if (s.Offset() - first) % W64 > (offset + minsleepadj) % W64 {
        offset := (s.Offset() - first) % W64;
        before := s.before;
      }
      valid := true;
    }

    /** get_sleep_offset */
    method GetSleepOffset(haveScale: bool, c: Collected)
      modifies this
      ensures Value() == if haveScale then Attempted(old(Value()), c) else old(Value())
    {
      if !haveScale {
        return;
      }
      match c
      case Failed =>
      case BadLength => valid := true;
      case Got(s) =>
        if s.toddiff < 0 {
          valid := true;
          return;
        }
        var minsleepadj := s.five;
        var maxdrift := (s.before - before) % W64 / DRIFT;
        if maxdrift > minsleepadj {
          minsleepadj := maxdrift;
        }
        Update(s, minsleepadj);
    }

    /** mach_continuous_time: an offset is looked for as long as there is none. */
    method MachContinuousTime(haveScale: bool, c: Collected, machTime: u64) returns (r: u64)
      modifies this
      ensures Value() == if old(valid) || !haveScale then old(Value()) else Attempted(old(Value()), c)
      ensures r == (machTime + offset) % W64
    {
      if !valid {
        GetSleepOffset(haveScale, c);
      }
      r := (machTime + offset) % W64;
    }
  }

  // ---- One update ----

  /** What holds of the variables as long as no offset is below the baseline. */
  predicate Sound(st: Statics) {
    -LIMIT < st.first <= 0 && st.offset < 2 * LIMIT && st.before < LIMIT
  }

  /** The raw offset lies below a baseline retained earlier. */
  predicate Below(st: Statics, s: Sample) {
    st.first < 0 && s.Offset() < st.first
  }

  predicate Adjusted(adj: int, s: Sample) {
    s.five <= adj < LIMIT
  }

  lemma AllowanceFits(s: Sample, lastBefore: u64)
    requires s.Plausible()
    ensures Adjusted(Allowance(s, lastBefore), s)
  {}

  /** sleep_offset as it acts in the wrapping sum with a mach time. */
  function Signed(x: u64): int {
    if x < 2 * LIMIT then x else x - W64
  }

  /** An update leaves the offset alone, or advances it by more than the allowance. */
  lemma UpdateAdvances(st: Statics, s: Sample, adj: int)
    requires Sound(st) && s.Plausible() && Adjusted(adj, s) && !Below(st, s)
    ensures var st' := Updated(st, s, adj);
            Sound(st') && (st'.offset == st.offset || st'.offset > st.offset + adj)
  {
    var diff := s.Offset() - First(st, s);
    assert 0 <= diff < 2 * LIMIT;
  }

  /** The offset ever acts as a smaller one exactly after a raw offset below the retained baseline. */
  lemma StepsBackExactly(st: Statics, s: Sample, adj: int)
    requires Sound(st) && s.Plausible() && Adjusted(adj, s)
    ensures Signed(Updated(st, s, adj).offset) < Signed(st.offset) <==> Below(st, s)
  {
    var diff := s.Offset() - First(st, s);
    assert -LIMIT < diff < 2 * LIMIT;
    assert diff % W64 == if diff < 0 then diff + W64 else diff;
    assert (st.offset + adj) % W64 == st.offset + adj;
  }

  /**
   What the offset is: an update without a retained baseline that advances the offset makes mach time (in the middle of
   the sample) and offset add up to the time since boot; any other leaves the offset alone.
   */
  lemma TimeSinceBoot(st: Statics, s: Sample, adj: int)
    requires Sound(st) && s.Plausible() && Adjusted(adj, s) && st.first == 0 && s.Offset() >= 0
    ensures var offset := Updated(st, s, adj).offset;
            if s.Offset() > st.offset + adj then (s.before + s.after) / 2 + offset == s.toddiff else offset == st.offset
  {}

  /** With a baseline retained they add up to what they were when that was taken. */
  lemma TimeSinceBaseline(st: Statics, s: Sample, adj: int)
    requires Sound(st) && s.Plausible() && Adjusted(adj, s) && st.first < 0 && !Below(st, s)
    ensures var offset := Updated(st, s, adj).offset;
            if s.Offset() - st.first > st.offset + adj then (s.before + s.after) / 2 + offset == s.toddiff - st.first
            else offset == st.offset
  {}

  /** The first negative raw offset becomes the baseline, and nothing else does; it is retained. */
  lemma BaselineIs(st: Statics, s: Sample, adj: int)
    ensures var st' := Updated(st, s, adj);
            && st'.raw == s.Offset() && st'.valid
            && (st.first != 0 || s.Offset() >= 0 ==> st'.first == st.first)
            && (st.first == 0 && s.Offset() < 0 ==> st'.first == s.toddiff - (s.before + s.after) / 2)
    ensures var st' := Updated(st, s, adj); st'.offset != st.offset ==> st'.before == s.before
  {}

  /** The allowance is the larger of five seconds and one part in 10000 of the time since the sample last used. */
  lemma AllowanceIs(s: Sample, lastBefore: u64)
    requires s.Plausible() && lastBefore <= s.before
    ensures var adj, elapsed := Allowance(s, lastBefore), s.before - lastBefore;
            && adj >= s.five && 10_000 * adj > elapsed - 10_000
            && (adj == s.five || 10_000 * adj <= elapsed)
  {}

  /** A machine that slept 900 of 1000 seconds: the first reading of mach time 100 gives 1000. */
  lemma SleptLong()
    ensures var second := 1_000_000_000;
            var s := Sample(1000 * second, 100 * second, 100 * second, 5 * second);
            Attempted(INITIAL, Got(s)) == Statics(true, 900 * second, 900 * second, 0, 100 * second)
  {}

  // ---- Any number of threads ----

  /**
   A thread has found no valid offset, or has collected a sample but not locked yet, or has read the mach time but not
   the offset yet.
   */
  datatype Phase = Looking | Collecting(s: Sample, adj: int) | Reading(mach: nat, floor: int)

  /** `now` is the absolute time, `latest` the largest continuous time returned so far. */
  datatype System = System(st: Statics, now: nat, th: map<nat, Phase>, latest: int)

  datatype Event =
    | Tick(now: nat)
    | Look(t: nat)
    | Collect(t: nat, c: Collected)
    | Update(t: nat)
    | Start(t: nat)
    | Finish(t: nat)

  /** What a reading thread is about to return. */
  function Continuous(s: System, t: nat): u64
    requires t in s.th && s.th[t].Reading?
  {
    (s.th[t].mach + s.st.offset) % W64
  }

  /** The thread has collected something; implausible samples do not occur. */
  function CollectedBy(s: System, t: nat, c: Collected): System {
    if c.Failed? then s.(th := s.th - {t})
    else if c.Garbage() then s.(st := s.st.(valid := true), th := s.th - {t})
    else if c.s.Plausible() then s.(th := s.th[t := Collecting(c.s, Allowance(c.s, s.st.before))])
    else s
  }

  function Do(s: System, e: Event): System {
    match e
    case Tick(now) => if s.now <= now < LIMIT then s.(now := now) else s
    case Look(t) => if t !in s.th && !s.st.valid then s.(th := s.th[t := Looking]) else s
    case Collect(t, c) => if t in s.th && s.th[t].Looking? then CollectedBy(s, t, c) else s
    case Update(t) =>
      if t in s.th && s.th[t].Collecting? then s.(st := Updated(s.st, s.th[t].s, s.th[t].adj), th := s.th - {t}) else s
    case Start(t) => if t !in s.th then s.(th := s.th[t := Reading(s.now, s.latest)]) else s
    case Finish(t) =>
      if t in s.th && s.th[t].Reading? then
        s.(th := s.th - {t}, latest := if Continuous(s, t) > s.latest then Continuous(s, t) else s.latest)
      else s
  }

  function Run(s: System, es: seq<Event>): System
    decreases |es|
  {
    if es == [] then s else Do(Run(s, es[..|es| - 1]), es[|es| - 1])
  }

  /** The event updates the offset. */
  predicate Updates(s: System, e: Event) {
    e.Update? && e.t in s.th && s.th[e.t].Collecting?
  }

  /** The event brings in an offset below the baseline. */
  predicate Lowers(s: System, e: Event) {
    Updates(s, e) && Below(s.st, s.th[e.t].s)
  }

  /** No update of the run brings in an offset below the baseline. */
  predicate Clean(s: System, es: seq<Event>)
    decreases |es|
  {
    es != [] ==> Clean(s, es[..|es| - 1]) && !Lowers(Run(s, es[..|es| - 1]), es[|es| - 1])
  }

  /** At no event of the run does the offset act as a smaller one. */
  predicate Forward(s: System, es: seq<Event>)
    decreases |es|
  {
    es != [] ==> Forward(s, es[..|es| - 1]) && Signed(Run(s, es[..|es| - 1]).st.offset) <= Signed(Run(s, es).st.offset)
  }

  /** No thread updates an offset that is valid already. */
  predicate OneUpdate(s: System, es: seq<Event>)
    decreases |es|
  {
    && es != [] ==>
      && OneUpdate(s, es[..|es| - 1])
      && (Updates(Run(s, es[..|es| - 1]), es[|es| - 1]) ==> !Run(s, es[..|es| - 1]).st.valid)
  }

  predicate PhaseOk(s: System, p: Phase) {
    match p
    case Looking => true
    case Collecting(x, adj) => x.Plausible() && Adjusted(adj, x)
    case Reading(mach, floor) => mach <= s.now && floor <= mach + s.st.offset
  }

  ghost predicate Inv(s: System) {
    && Sound(s.st) && s.now < LIMIT && s.latest <= s.now + s.st.offset
    && (s.st.first < 0 ==> s.st.valid)
    && forall t | t in s.th :: PhaseOk(s, s.th[t])
  }

  predicate Begin(s: System) {
    s.st == INITIAL && s.now < LIMIT && s.th == map[] && s.latest == 0
  }

  lemma InvDo(s: System, e: Event)
    requires Inv(s) && !Lowers(s, e)
    ensures Inv(Do(s, e)) && s.st.offset <= Do(s, e).st.offset
  {
    hide Updated, Allowance;
    match e
    case Update(t) =>
      if t in s.th && s.th[t].Collecting? {
        UpdateAdvances(s.st, s.th[t].s, s.th[t].adj);
        NowValid(s.st, s.th[t].s, s.th[t].adj);
      }
    case Collect(t, c) =>
      if c.Got? && c.s.Plausible() {
        AllowanceFits(c.s, s.st.before);
      }
    case _ =>
  }

  lemma NowValid(st: Statics, s: Sample, adj: int)
    ensures Updated(st, s, adj).valid
  {}

  /**
   In every run without an offset below the baseline, at every point: a thread that is reading returns at least
   everything that was returned before it started.
   */
  lemma {:induction false} NeverStepsBack(s: System, es: seq<Event>)
    requires Begin(s) && Clean(s, es)
    ensures Inv(Run(s, es))
    ensures var e := Run(s, es); forall t | t in e.th && e.th[t].Reading? :: e.th[t].floor <= Continuous(e, t)
    decreases |es|
  {
    hide Do, Below;
    if es != [] {
      NeverStepsBack(s, es[..|es| - 1]);
      InvDo(Run(s, es[..|es| - 1]), es[|es| - 1]);
    }
  }

  /** And the offset never decreases from any point of such a run to any later one. */
  lemma {:induction false} OffsetGrows(s: System, es: seq<Event>, n: nat)
    requires Begin(s) && Clean(s, es) && n <= |es|
    ensures Run(s, es[..n]).st.offset <= Run(s, es).st.offset
    decreases |es|
  {
    hide Do, Below, Inv;
    if n < |es| {
      var init := es[..|es| - 1];
      assert init[..n] == es[..n];
      OffsetGrows(s, init, n);
      NeverStepsBack(s, init);
      InvDo(Run(s, init), es[|es| - 1]);
    } else {
      assert es[..n] == es;
    }
  }

  /** Every change in such a run exceeds five seconds, and the drift since the sample that the thread had seen. */
  lemma ChangesExceed(s: System, es: seq<Event>, t: nat)
    requires Begin(s) && Clean(s, es + [Update(t)])
    requires t in Run(s, es).th && Run(s, es).th[t].Collecting?
    ensures var a, b, p := Run(s, es).st.offset, Run(s, es + [Update(t)]).st.offset, Run(s, es).th[t];
            p.s.five <= p.adj && (b == a || b > a + p.adj)
  {
    hide Updated, Below;
    var all := es + [Update(t)];
    assert all[..|all| - 1] == es;
    NeverStepsBack(s, es);
    UpdateAdvances(Run(s, es).st, Run(s, es).th[t].s, Run(s, es).th[t].adj);
  }

  /**
   The offset goes forward at every event of a run precisely if no update of the run brings in an offset below the
   baseline.
   */
  lemma {:induction false} ForwardExactly(s: System, es: seq<Event>)
    requires Begin(s)
    ensures Forward(s, es) <==> Clean(s, es)
    decreases |es|
  {
    hide Do, Below, Inv, Lowers, Signed;
    if es != [] {
      var init, e := es[..|es| - 1], es[|es| - 1];
      ForwardExactly(s, init);
      if Clean(s, init) {
        NeverStepsBack(s, init);
        StepForward(Run(s, init), e);
      }
    }
  }

  lemma StepForward(s: System, e: Event)
    requires Inv(s)
    ensures Signed(s.st.offset) <= Signed(Do(s, e).st.offset) <==> !Lowers(s, e)
  {
    hide Updated, Below;
    if Lowers(s, e) {
      StepsBackExactly(s.st, s.th[e.t].s, s.th[e.t].adj);
    } else {
      InvDo(s, e);
      assert Sound(Do(s, e).st);
    }
  }

  /** That is so if no thread updates an offset that is valid already. */
  lemma {:induction false} OneUpdateIsClean(s: System, es: seq<Event>)
    requires Begin(s) && OneUpdate(s, es)
    ensures Clean(s, es)
    decreases |es|
  {
    hide Do, Run;
    if es != [] {
      OneUpdateIsClean(s, es[..|es| - 1]);
      NeverStepsBack(s, es[..|es| - 1]);
    }
  }

  /** Nobody is about to update the offset. */
  predicate Quiet(s: System) {
    s.st.valid && forall t | t in s.th :: s.th[t].Reading?
  }

  /** Once there is an offset and no thread is still after one, it stays for good. */
  lemma {:induction false} StaysForGood(s: System, es: seq<Event>)
    requires Quiet(s)
    ensures Quiet(Run(s, es)) && Run(s, es).st == s.st
    decreases |es|
  {
    if es != [] {
      StaysForGood(s, es[..|es| - 1]);
    }
  }

  /** A thread that is not interrupted does what get_sleep_offset does. */
  lemma AloneIsAttempt(s: System, t: nat, c: Collected)
    requires t !in s.th && !s.st.valid
    requires c.Got? && !c.Garbage() ==> c.s.Plausible()
    ensures Do(Do(Do(s, Look(t)), Collect(t, c)), Update(t)) == s.(st := Attempted(s.st, c))
  {
    hide Updated, Allowance;
    var looking := s.th[t := Looking];
    assert looking - {t} == s.th;
    if c.Got? && !c.Garbage() {
      var collecting := looking[t := Collecting(c.s, Allowance(c.s, s.st.before))];
      assert collecting - {t} == s.th;
    }
  }

  // ---- Two threads that both found no offset ----

  /** A raw offset of `-k`. */
  function Raw(k: u64): Collected {
    Got(Sample(0, k, k, 5_000_000_000))
  }

  const BOTH: seq<Event> :=
    [Look(1), Look(2), Collect(1, Raw(10)), Collect(2, Raw(20)), Update(1), Start(3), Finish(3), Update(2), Start(4)]

  lemma Step(s: System, n: nat, before: System, after: System)
    requires n < |BOTH| && Run(s, BOTH[..n]) == before && Do(before, BOTH[n]) == after
    ensures Run(s, BOTH[..n + 1]) == after
  {
    hide Do;
    assert BOTH[..n + 1][..n] == BOTH[..n];
  }

  /** The phase after Raw(k) was collected at the beginning. */
  function Raised(k: u64): Phase {
    Collecting(Raw(k).s, 5_000_000_000)
  }

  lemma TwoCollect(s: System)
    requires s == System(INITIAL, 100, map[], 0)
    ensures Run(s, BOTH[..4]) == s.(th := map[1 := Raised(10), 2 := Raised(20)])
  {
    hide Run, Updated;
    assert Run(s, BOTH[..0]) == s by {
      RunNothing(s, BOTH[..0]);
    }
    Step(s, 0, s, s.(th := map[1 := Looking]));
    Step(s, 1, s.(th := map[1 := Looking]), s.(th := map[1 := Looking, 2 := Looking]));
    assert Allowance(Raw(10).s, 0) == 5_000_000_000 == Allowance(Raw(20).s, 0);
    Step(s, 2, s.(th := map[1 := Looking, 2 := Looking]), s.(th := map[1 := Raised(10), 2 := Looking]));
    Step(s, 3, s.(th := map[1 := Raised(10), 2 := Looking]), s.(th := map[1 := Raised(10), 2 := Raised(20)]));
  }

  lemma RunNothing(s: System, es: seq<Event>)
    requires es == []
    ensures Run(s, es) == s
  {}

  const FIRST: Statics := Statics(true, 0, -10, -10, 0)
  const SECOND: Statics := Statics(true, W64 - 10, -20, -10, 20)

  lemma TwoUpdates()
    ensures Updated(INITIAL, Raw(10).s, 5_000_000_000) == FIRST
    ensures Updated(FIRST, Raw(20).s, 5_000_000_000) == SECOND
  {}

  /**
   Two threads look before the first one has updated, and the second one's offset is lower: after its update the
   continuous time is ten units below what another thread was given before.
   */
  lemma StepsBackInRun(s: System)
    requires s == System(INITIAL, 100, map[], 0)
    ensures var e := Run(s, BOTH);
            Begin(s) && 4 in e.th && e.th[4].Reading? && e.th[4].floor == 100 && Continuous(e, 4) == 90
    ensures Signed(Run(s, BOTH[..7]).st.offset) == 0 && Signed(Run(s, BOTH[..8]).st.offset) == -10
  {
    hide Run, Updated;
    TwoCollect(s);
    TwoUpdates();
    var after := System(FIRST, 100, map[2 := Raised(20)], 0);
    Step(s, 4, s.(th := map[1 := Raised(10), 2 := Raised(20)]), after);
    Step(s, 5, after, after.(th := map[2 := Raised(20), 3 := Reading(100, 0)]));
    Step(s, 6, after.(th := map[2 := Raised(20), 3 := Reading(100, 0)]), after.(latest := 100));
    Step(s, 7, after.(latest := 100), System(SECOND, 100, map[], 100));
    Step(s, 8, System(SECOND, 100, map[], 100), System(SECOND, 100, map[4 := Reading(100, 100)], 100));
    assert BOTH[..9] == BOTH;
  }
}
