/** clock_gettime, clock_gettime_nsec_np and clock_getres, with the scale that they keep. */
module Clock {
  import opened Wrappers
  import opened Bytes
  import opened MachTime

  datatype ClockId =
    | Realtime | ProcessCputime | ThreadCputime
    | Monotonic | MonotonicRaw | MonotonicRawApprox | UptimeRaw | UptimeRawApprox
    | Unknown

  /** Seconds and microseconds, in normal form. */
  datatype Timeval = Timeval(sec: int, usec: int) {
    predicate Normal() {
      0 <= usec < 1_000_000
    }

    function Nanos(): int {
      sec * BILLION + usec * 1000
    }
  }

  /** User and system time. */
  datatype Usage = Usage(user: Timeval, system: Timeval) {
    predicate Normal() {
      user.Normal() && system.Normal()
    }

    function Nanos(): int {
      user.Nanos() + system.Nanos()
    }
  }

  /** A thread's seconds are 32-bit integers, and so is their sum. */
  predicate InInt(u: Usage) {
    0 <= u.user.sec && 0 <= u.system.sec && u.user.sec + u.system.sec < 0x8000_0000
  }

  /** What the system answers during one call; a missing value is a failed system call. */
  datatype Samples = Samples(timebase: Option<(u32, u32)>, tod: Option<Timeval>, process: Option<Usage>,
                             thread: Option<Usage>, selfUsage: u64, continuous: u64, continuousApprox: u64,
                             absolute: u64, approx: u64) {
    predicate Normal() {
      && (timebase.Some? ==> timebase.value.1 > 0)
      && (tod.Some? ==> tod.value.Normal())
      && (process.Some? ==> process.value.Normal())
      && (thread.Some? ==> thread.value.Normal() && InInt(thread.value))
    }
  }

  /** The clocks that show mach time, scaled and nothing else. */
  predicate Scaled(id: ClockId) {
    id in {MonotonicRaw, MonotonicRawApprox, UptimeRaw, UptimeRawApprox}
  }

  function MachReading(id: ClockId, s: Samples): u64
    requires Scaled(id)
  {
    match id
    case MonotonicRaw => s.continuous
    case MonotonicRawApprox => s.continuousApprox
    case UptimeRaw => s.absolute
    case UptimeRawApprox => s.approx
  }

  /** Whether the clock could be read at all. */
  predicate Sampled(id: ClockId, s: Samples, hires: bool) {
    match id
    case Unknown => false
    case Realtime => s.tod.Some?
    case ProcessCputime => s.process.Some?
    case ThreadCputime => if hires then s.selfUsage != 0 else s.thread.Some?
    case _ => true
  }

  /** The time that a clock shows, in nanoseconds; `hires` tells how threads are accounted (10.10 on, or before). */
  function Time(id: ClockId, s: Samples, mult: u64, hires: bool): int
    requires Sampled(id, s, hires)
  {
    match id
    case Realtime => s.tod.value.Nanos()
    case ProcessCputime => s.process.value.Nanos()
    case ThreadCputime =>
      if hires then Mach2Nanos(mult, s.selfUsage)
      else if s.thread.value.Nanos() == 0 then 1 else s.thread.value.Nanos()
    case Monotonic => Mach2Nanos(mult, s.continuous) / 1000 * 1000
    case MonotonicRaw | MonotonicRawApprox | UptimeRaw | UptimeRawApprox => Mach2Nanos(mult, MachReading(id, s))
  }

  predicate NormalForm(ts: Timespec) {
    0 <= ts.nsec < 1_000_000_000
  }

  function Total(ts: Timespec): int {
    ts.sec * 1_000_000_000 + ts.nsec
  }

  /** timeradd() and TIMEVAL_TO_TIMESPEC. */
  method Added(u: Usage) returns (ts: Timespec)
    requires u.Normal()
    ensures NormalForm(ts) && Total(ts) == u.Nanos()
  {
    var sec, usec := u.user.sec + u.system.sec, u.user.usec + u.system.usec;
    if usec >= 1_000_000 {
      sec, usec := sec + 1, usec - 1_000_000;
    }
    ts := Timespec(sec, usec * 1000);
  }

  /** The static variables mach_scale, mach_mult and res_mach. */
  class Statics {
    var numer: u32
    var denom: u32
    var mult: u64
    var res: int
    const hires: bool

    /** The multiplier and the resolution are both unset, or both those of the scale. */
    ghost predicate Valid()
      reads this
    {
      && (numer == 0 ==> mult == 0 && res == 0)
      && (numer > 0 ==>
            denom > 0 && ((mult == 0 && res == 0) || (mult == Mult(numer, denom) && res == Resolution(mult))))
    }

    constructor (hires: bool)
      ensures Valid() && this.hires == hires && numer == 0 && mult == 0
    {
      numer, denom, mult, res := 0, 0, 0, 0;
      this.hires := hires;
    }

    /** get_mach_scale: asks the system once, and again only after a failure. */
    method GetMachScale(timebase: Option<(u32, u32)>) returns (ret: int)
      requires Valid() && (timebase.Some? ==> timebase.value.1 > 0)
      modifies this`numer, this`denom
      ensures Valid() && denom > 0
      ensures numer == if old(numer) != 0 then old(numer) else if timebase.Some? then timebase.value.0 else 0
      ensures old(numer) != 0 ==> denom == old(denom)
      ensures old(numer) == 0 && timebase.Some? ==> denom == timebase.value.1
      ensures ret == (if old(numer) == 0 && timebase.None? then -1 else 0)
    {
      if numer != 0 {
        return 0;
      }
      match timebase
      case None =>
        numer, denom := 0, 1;
        return -1;
      case Some(scale) =>
        numer, denom := scale.0, scale.1;
        return 0;
    }

    /** setup_mach_mult: afterwards the multiplier and the resolution are those of the scale, or 0 if there is none. */
    method SetupMachMult(timebase: Option<(u32, u32)>) returns (ret: int)
      requires Valid() && (timebase.Some? ==> timebase.value.1 > 0)
      modifies this
      ensures Valid() && denom > 0 && mult == Mult(numer, denom) && res == Resolution(mult)
      ensures numer == if old(numer) != 0 then old(numer) else if timebase.Some? then timebase.value.0 else 0
      ensures old(numer) != 0 ==> denom == old(denom)
      ensures old(numer) == 0 && timebase.Some? ==> denom == timebase.value.1
      ensures ret == (if old(numer) == 0 && timebase.None? then -1 else 0)
    {
      ret := GetMachScale(timebase);
      mult := Mult(numer, denom);
      res := Resolution(mult);
      if numer == 0 {
        NoScale(denom);
      }
    }

    /** clock_gettime_nsec_np: the time modulo 2^64, and 0 if there is none. */
    method ClockGettimeNsecNp(id: ClockId, s: Samples) returns (r: u64)
      requires Valid() && s.Normal()
      modifies this
      ensures Valid() && (old(mult) != 0 ==> mult == old(mult))
      ensures r == if Sampled(id, s, hires) then Time(id, s, mult, hires) % W64 else 0
    {
      hide Mach2Nanos, Mult, Resolution;
      if mult == 0 {
        var ret := SetupMachMult(s.timebase);
      }
      match id
      case Unknown => return 0;
      case Realtime =>
        return if s.tod.None? then 0 else (s.tod.value.sec * BILLION + s.tod.value.usec * 1000) % W64;
      case ProcessCputime =>
        return if s.process.None? then 0 else UsageNanos(s.process.value);
      case ThreadCputime =>
        if hires {
          NothingYet(mult);
          return Mach2Nanos(mult, s.selfUsage);
        }
        if s.thread.None? {
          return 0;
        }
        return if UsageNanos(s.thread.value) != 0 then UsageNanos(s.thread.value) else 1;
      case Monotonic =>
        return Mach2Nanos(mult, s.continuous) / 1000 * 1000;
      case _ =>
        return Mach2Nanos(mult, MachReading(id, s));
    }

    /**
     clock_gettime: a time in normal form that is the same, to the nanosecond; it fails without a reading, and for
     clocks scaled here when the scale cannot be had.
     */
    method ClockGettime(id: ClockId, s: Samples) returns (ret: int, ts: Timespec)
      requires Valid() && s.Normal()
      modifies this
      ensures Valid() && (old(mult) != 0 ==> mult == old(mult))
      ensures ret == 0 <==>
              && Sampled(id, s, hires)
              && (Scaled(id) || id == Monotonic ==> old(mult) != 0 || numer != 0 || s.timebase.Some?)
      ensures ret == 0 ==> NormalForm(ts) && Total(ts) == Time(id, s, mult, hires) && 0 <= ts.nsec < 1_000_000_000
    {
      hide Mach2Nanos, Mult, Resolution, Nanos2Timespec;
      var mserr := 0;
      if mult == 0 {
        mserr := SetupMachMult(s.timebase);
      }
      ts := Timespec(0, 0);
      match id
      case Unknown => return -1, ts;
      case Realtime =>
        if s.tod.None? {
          return -1, ts;
        }
        return 0, Timespec(s.tod.value.sec, s.tod.value.usec * 1000);
      case ProcessCputime =>
        if s.process.None? {
          return -1, ts;
        }
        ts := Added(s.process.value);
        return 0, ts;
      case ThreadCputime =>
        ret, ts := ThreadUsage(s);
      case Monotonic =>
        var nanos := Mach2Nanos(mult, s.continuous) / 1000 * 1000;
        Recombines(nanos);
        return mserr, Nanos2Timespec(nanos);
      case _ =>
        var nanos := Mach2Nanos(mult, MachReading(id, s));
        Recombines(nanos);
        return mserr, Nanos2Timespec(nanos);
    }

    /**
     get_thread_usage_ts, in both builds; a thread that has used nothing yet shows one nanosecond in the older one.
     */
    method ThreadUsage(s: Samples) returns (ret: int, ts: Timespec)
      requires s.Normal()
      ensures ret == 0 <==> Sampled(ThreadCputime, s, hires)
      ensures ret == 0 ==> NormalForm(ts) && Total(ts) == Time(ThreadCputime, s, mult, hires)
    {
      if hires {
        var nanos := Mach2Nanos(mult, s.selfUsage);
        Recombines(nanos);
        return if s.selfUsage != 0 then 0 else -1, Nanos2Timespec(nanos);
      }
      if s.thread.None? {
        return -1, Timespec(0, 0);
      }
      var u := s.thread.value;
      var sec, nsec := u.user.sec + u.system.sec, (u.user.usec + u.system.usec) * 1000;
      if nsec >= BILLION {
        sec, nsec := sec + 1, nsec - BILLION;
      }
      if sec == 0 && nsec == 0 {
        nsec := 1;
      }
      return 0, Timespec(sec, nsec);
    }

    /** clock_getres: a microsecond for clocks kept in timevals, the resolution of the scale for the others. */
    method ClockGetres(id: ClockId, timebase: Option<(u32, u32)>) returns (ret: int, nsec: int)
      requires Valid() && (timebase.Some? ==> timebase.value.1 > 0)
      modifies this
      ensures Valid()
      ensures ret == 0 <==>
              || id in {Realtime, ProcessCputime, Monotonic} || (id == ThreadCputime && !hires)
              || (id != Unknown && (old(res) != 0 || numer != 0 || timebase.Some?))
      ensures ret == 0 ==>
                nsec == if id in {Realtime, ProcessCputime, Monotonic} || (id == ThreadCputime && !hires) then 1000
                        else res
      ensures if old(res) != 0 then res == old(res) else denom > 0 && res == Resolution(Mult(numer, denom))
    {
      hide Mult, Resolution;
      var mserr := 0;
      if res == 0 {
        mserr := SetupMachMult(timebase);
      }
      if id == Unknown {
        return -1, 0;
      }
      if Scaled(id) || (id == ThreadCputime && hires) {
        return mserr, res;
      }
      return 0, 1000;
    }
  }

  function UsageNanos(u: Usage): u64 {
    ((u.user.sec + u.system.sec) * BILLION + (u.user.usec + u.system.usec) * 1000) % W64
  }

  lemma NoScale(denom: u32)
    requires denom > 0
    ensures Mult(0, denom) == 0 && Resolution(0) == 0
  {
    Quotient(denom / 2, denom, 0);
  }

  lemma NothingYet(mult: u64)
    ensures Mach2Nanos(mult, 0) == 0
  {
    Middle(0, mult);
  }

  // ---- What the readings keep ----

  /** CLOCK_MONOTONIC shows whole microseconds, and is less than one behind CLOCK_MONOTONIC_RAW. */
  lemma MonotonicBehindRaw(s: Samples, mult: u64, hires: bool)
    ensures var m, raw := Time(Monotonic, s, mult, hires), Time(MonotonicRaw, s, mult, hires);
            m % 1000 == 0 && m <= raw < m + 1000
  {
    hide Mach2Nanos;
  }

  /** What each clock shows, in nanoseconds, and when the others show nothing. */
  lemma Shows(s: Samples, mult: u64, hires: bool)
    requires s.Normal()
    ensures Sampled(ThreadCputime, s, true) <==> s.selfUsage != 0
    ensures Sampled(ThreadCputime, s, false) <==> s.thread.Some?
    ensures (Sampled(Realtime, s, hires) <==> s.tod.Some?) && (Sampled(ProcessCputime, s, hires) <==> s.process.Some?)
    ensures !Sampled(Unknown, s, hires)
    ensures Time(MonotonicRaw, s, mult, hires) == Mach2Nanos(mult, s.continuous)
    ensures Time(MonotonicRawApprox, s, mult, hires) == Mach2Nanos(mult, s.continuousApprox)
    ensures Time(UptimeRaw, s, mult, hires) == Mach2Nanos(mult, s.absolute)
    ensures Time(UptimeRawApprox, s, mult, hires) == Mach2Nanos(mult, s.approx)
    ensures s.selfUsage != 0 ==> Time(ThreadCputime, s, mult, true) == Mach2Nanos(mult, s.selfUsage)
    ensures s.tod.Some? ==> Time(Realtime, s, mult, hires) == s.tod.value.sec * 1_000_000_000 + s.tod.value.usec * 1000
    ensures s.process.Some? ==>
              var u := s.process.value;
              Time(ProcessCputime, s, mult, hires) ==
              (u.user.sec + u.system.sec) * 1_000_000_000 + (u.user.usec + u.system.usec) * 1000
    ensures s.thread.Some? ==>
              var u := s.thread.value;
              var nanos := (u.user.sec + u.system.sec) * 1_000_000_000 + (u.user.usec + u.system.usec) * 1000;
              Time(ThreadCputime, s, mult, false) == if nanos == 0 then 1 else nanos
  {
    hide Mach2Nanos;
  }

  /** With a scale of 1:1, as on Intel machines, a second of mach time is a second. */
  lemma OneSecond(s: Samples, hires: bool)
    requires s.continuous == 1_000_000_999 && s.absolute == 999_999_999
    ensures Time(MonotonicRaw, s, Mult(1, 1), hires) == 1_000_000_999
    ensures Time(Monotonic, s, Mult(1, 1), hires) == 1_000_000_000
    ensures Time(UptimeRaw, s, Mult(1, 1), hires) == 999_999_999
  {
    SameScale();
  }

  /** The mach time behind a clock, for all clocks that show it. */
  function Behind(id: ClockId, s: Samples): u64
    requires Scaled(id) || id == Monotonic
  {
    if id == Monotonic then s.continuous else MachReading(id, s)
  }

  /** As long as its mach time does not step back (and its product stays below 2^96), no such clock does. */
  lemma NeverBack(id: ClockId, s: Samples, s': Samples, mult: u64, hires: bool)
    requires Scaled(id) || id == Monotonic
    requires Behind(id, s) <= Behind(id, s') && Behind(id, s') * mult < W96
    ensures Time(id, s, mult, hires) <= Time(id, s', mult, hires)
  {
    hide Mach2Nanos;
    Monotone(mult, Behind(id, s), Behind(id, s'));
  }
}
