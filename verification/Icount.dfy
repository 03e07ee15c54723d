/**
  The instruction-count budget shared by tcg_cpu_exec (cpus.c) and cpu_exec (cpu-exec.c).

  `low` is icount_decr.u16.low, `flagged` says whether icount_decr.u16.high holds 0xffff, which a
  pending interrupt puts there and which makes icount_decr.u32 negative.
 */
module Icount {
  import opened Base

  const INT32_MAX: int := 0x7fff_ffff

  datatype Budget = Budget(icount: int, low: nat, flagged: bool, extra: int)

  datatype Event =
    | Grant(left: Option<int>, shift: nat)  // the start of tcg_cpu_exec; `left` is the time to the first timer
    | Block(n: nat)          // a translation block of n instructions is entered
    | Expired(last: nat)     // the exit that the generated code takes when the counter ran out
    | FoldBack               // the end of tcg_cpu_exec
    | Flag(on: bool)         // an interrupt is requested or acknowledged

  /** A store to a 16-bit field. */
  function Low16(v: int): nat { v % 0x1_0000 }

  /** icount_decr.u32 read as a signed number. */
  function Decrementer(b: Budget): int {
    if b.flagged then b.low - 0x1_0000 else b.low
  }

  /** qemu_icount - (icount_decr.u16.low + icount_extra): the instructions executed so far. */
  function Elapsed(b: Budget): int {
    b.icount - (b.low + b.extra)
  }

  /** qemu_next_icount_deadline: the time to the first timer, which may be in the past, or no timer. */
  function NextDeadline(left: Option<int>): int {
    var delta := if left.Some? then left.value else INT32_MAX;
    if delta < 0 then 0 else delta
  }

  /** qemu_icount_round: `shift` is icount_time_shift. */
  function Round(count: int, shift: nat): int {
    (count + Pow2(shift) - 1) / Pow2(shift)
  }

  /** Rounding gives the least number of instructions that take at least that long. */
  lemma RoundIsLeast(count: int, shift: nat, n: int)
    ensures Round(count, shift) * Pow2(shift) >= count
    ensures n * Pow2(shift) >= count ==> n >= Round(count, shift)
  {
    var d := Pow2(shift);
    var v := count + d - 1;
    assert v == v / d * d + v % d;
    if n < v / d {
      MulMonotone(n + 1, v / d, d);
    }
  }

  /** However late the timer is, the budget granted is not negative. */
  lemma GrantNotNegative(left: Option<int>, shift: nat)
    ensures Round(NextDeadline(left), shift) >= 0
  {
    var d := Pow2(shift);
    assert NextDeadline(left) + d - 1 >= 0;
  }

  function Granted(b: Budget, count: int): Budget {
    var decr := if count > 0xffff then 0xffff else count;
    Budget(b.icount - (b.low + b.extra) + count, Low16(decr), b.flagged, count - decr)
  }

  /** gen_icount_start: leave at once when fewer than n instructions remain or the flag is set. */
  predicate Enters(b: Budget, n: nat) {
    Decrementer(b) - n >= 0
  }

  function Entered(b: Budget, n: nat): Budget {
    if Enters(b, n) then b.(low := Low16(Decrementer(b) - n)) else b
  }

  function Refilled(b: Budget): Budget {
    var extra := b.extra + Decrementer(b);
    var left := if extra > 0xffff then 0xffff else extra;
    b.(low := Low16(left), extra := extra - left)
  }

  /** The refill condition of cpu_exec. */
  predicate CanRefill(b: Budget) {
    b.extra != 0 && Decrementer(b) >= 0
  }

  /** The instructions that cpu_exec_nocache runs: the rest, or fewer when the block is shorter. */
  function NoCache(b: Budget, last: nat): nat {
    if !CanRefill(b) && Decrementer(b) > 0 && last <= Decrementer(b) then last else 0
  }

  function Apply(b: Budget, e: Event): Budget {
    match e
    case Grant(left, shift) => Granted(b, Round(NextDeadline(left), shift))
    case Block(n) => Entered(b, n)
    case Expired(last) => if CanRefill(b) then Refilled(b) else Entered(b, NoCache(b, last))
    case FoldBack => Budget(b.icount - (b.low + b.extra), 0, false, 0)
    case Flag(on) => b.(flagged := on)
  }

  /** The instructions that an event executes. */
  function Executed(b: Budget, e: Event): nat {
    match e
    case Block(n) => if Enters(b, n) then n else 0
    case Expired(last) => NoCache(b, last)
    case _ => 0
  }

  function Replay(b: Budget, events: seq<Event>): Budget {
    if events == [] then b
    else Apply(Replay(b, events[..|events| - 1]), events[|events| - 1])
  }

  function TotalExecuted(b: Budget, events: seq<Event>): nat {
    if events == [] then 0
    else
      TotalExecuted(b, events[..|events| - 1]) + Executed(Replay(b, events[..|events| - 1]), events[|events| - 1])
  }

  predicate Valid(b: Budget) {
    b.low <= 0xffff && 0 <= b.extra
  }

  /** A grant that is not negative moves the budget and not the clock. */
  lemma GrantConserves(b: Budget, count: nat)
    requires Valid(b)
    ensures Valid(Granted(b, count)) && Elapsed(Granted(b, count)) == Elapsed(b)
  {}

  lemma StepConserves(b: Budget, e: Event)
    requires Valid(b)
    ensures Valid(Apply(b, e))
    ensures Elapsed(Apply(b, e)) == Elapsed(b) + Executed(b, e)
  {
    hide Round, NextDeadline, Granted;
    if e.Grant? {
      GrantNotNegative(e.left, e.shift);
      GrantConserves(b, Round(NextDeadline(e.left), e.shift));
    }
  }

  /**
    Through every sequence of grants, blocks, refills and fold-backs the clock rises by exactly the
    number of instructions executed, and the 16-bit counter never overflows.
   */
  lemma {:induction false} RunConserves(b: Budget, events: seq<Event>)
    requires Valid(b)
    ensures Valid(Replay(b, events))
    ensures Elapsed(Replay(b, events)) == Elapsed(b) + TotalExecuted(b, events)
  {
    if events != [] {
      var n := |events| - 1;
      RunConserves(b, events[..n]);
      StepConserves(Replay(b, events[..n]), events[n]);
    }
  }

  /** A refill moves budget from icount_extra into the counter and loses none. */
  lemma RefillExact(b: Budget)
    requires Valid(b) && CanRefill(b)
    ensures var r := Refilled(b); r.low + r.extra == b.low + b.extra && r.low == Min(0xffff, b.low + b.extra)
  {}

  /** n instructions take at least the time t. */
  predicate Covers(n: nat, shift: nat, t: int) {
    n * Pow2(shift) >= t
  }

  /** The time that a grant has to cover. */
  function TimeLeft(left: Option<int>): int {
    if left.Some? then left.value else INT32_MAX
  }

  /** A grant is the least budget that reaches the first timer, as much of it as fits in the counter. */
  ghost predicate LeastGrant(b: Budget, left: Option<int>, shift: nat) {
    && 0 <= b.extra && b.low == Min(0xffff, b.low + b.extra)
    && Covers(b.low + b.extra, shift, TimeLeft(left))
    && (forall n: nat :: Covers(n, shift, TimeLeft(left)) ==> b.low + b.extra <= n)
  }

  lemma GrantIsLeast(b: Budget, left: Option<int>, shift: nat)
    ensures LeastGrant(Apply(b, Grant(left, shift)), left, shift)
  {
    hide Round, NextDeadline;
    var t := NextDeadline(left);
    var count := Round(t, shift);
    GrantNotNegative(left, shift);
    DeadlineIsTime(left);
    RoundIsLeast(t, shift, 0);
    forall n: nat | Covers(n, shift, TimeLeft(left))
      ensures count <= n
    {
      assert n * Pow2(shift) >= t;
      RoundIsLeast(t, shift, n);
    }
  }

  lemma DeadlineIsTime(left: Option<int>)
    ensures NextDeadline(left) >= 0 && NextDeadline(left) >= TimeLeft(left)
    ensures NextDeadline(left) == 0 || NextDeadline(left) == TimeLeft(left)
  {}

  /** A block starts exactly when no interrupt is flagged and the counter holds its n instructions. */
  lemma EntersExactly(b: Budget, n: nat)
    requires Valid(b)
    ensures Executed(b, Block(n)) == n && Enters(b, n) <==> !b.flagged && n <= b.low
    ensures b.flagged ==> Executed(b, Expired(n)) == 0 && !CanRefill(b)
  {}

  // ---- The fields as tcg_cpu_exec and cpu_exec update them ---------------------------------------------------

  class TcgCpu {
    var icount: int
    var low: nat
    var flagged: bool
    var extra: int

    function State(): Budget
      reads this
    {
      Budget(icount, low, flagged, extra)
    }

    /** tcg_cpu_exec before cpu_exec. */
    method GrantBudget(left: Option<int>, shift: nat)
      requires Valid(State())
      modifies this
      ensures State() == Apply(old(State()), Grant(left, shift))
      ensures Valid(State()) && Elapsed(State()) == old(Elapsed(State()))
      ensures LeastGrant(State(), left, shift)
    {
      hide LeastGrant;
      StepConserves(State(), Grant(left, shift));
      GrantIsLeast(State(), left, shift);
      icount := icount - (low + extra);
      low, extra := 0, 0;
      var count := Round(NextDeadline(left), shift);
      icount := icount + count;
      var decr := if count > 0xffff then 0xffff else count;
      low := Low16(decr);
      extra := count - decr;
    }

    /** cpu_exec when the instruction counter has expired. */
    method CounterExpired(last: nat) returns (leave: bool)
      requires Valid(State())
      modifies this
      ensures State() == Apply(old(State()), Expired(last))
      ensures leave <==> !CanRefill(old(State()))
      ensures Valid(State()) && Elapsed(State()) == old(Elapsed(State()) + Executed(State(), Expired(last)))
    {
      var left := Decrementer(State());
      if extra != 0 && left >= 0 {
        extra := extra + left;
        if extra > 0xffff {
          left := 0xffff;
        } else {
          left := extra;
        }
        extra := extra - left;
        low := Low16(left);
        return false;
      }
      if left > 0 && last <= left {
        low := Low16(left - last);
      }
      return true;
    }

    /** tcg_cpu_exec after cpu_exec. */
    method FoldBudgetBack()
      requires Valid(State())
      modifies this
      ensures State() == Apply(old(State()), FoldBack) && Elapsed(State()) == old(Elapsed(State())) == icount
    {
      icount := icount - (low + extra);
      low, flagged, extra := 0, false, 0;
    }
  }
}
