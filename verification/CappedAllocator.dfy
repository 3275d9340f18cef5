/** Memory allocation capped by a shared counter: the sequential counter as the specification, and
    threads that allocate and free through the lock-free one, interleaved step by step. */
module CappedAllocator {
  import opened Bytes

  datatype Op = Add(n: nat) | Sub(n: nat)

  /** What one operation does to a counter: the new value and the result. Subtracting more than
      there is violates an assertion of the counter. */
  function Apply(max: nat, value: nat, op: Op): Option<(nat, bool)> {
    match op
    case Add(n) => Some(if n <= max && value <= max - n then (value + n, true) else (value, false))
    case Sub(n) => if value >= n then Some((value - n, true)) else None
  }

  class SingleThreadedCounter {
    const max: nat
    var value: nat

    constructor (maxValue: nat)
      ensures max == maxValue && value == 0
    {
      max, value := maxValue, 0;
    }

    method TryAdd(n: nat) returns (ok: bool)
      modifies this
      ensures Apply(max, old(value), Add(n)) == Some((value, ok))
    {
      if n <= max && value <= max - n {
        value := value + n;
        return true;
      }
      ok := false;
    }

    method Subtract(n: nat)
      requires value >= n
      modifies this
      ensures Apply(max, old(value), Sub(n)) == Some((value, true))
    {
      value := value - n;
    }
  }

  /** Allocation with one thread; `available` is whether the underlying allocator succeeds. A
      failed allocation leaves no trace in the counter. */
  method Allocate(counter: SingleThreadedCounter, size: nat, available: bool) returns (ok: bool)
    modifies counter
    ensures ok <==> old(counter.value) + size <= counter.max && available
    ensures counter.value == if ok then old(counter.value) + size else old(counter.value)
  {
    ok := counter.TryAdd(size);
    if ok && !available {
      counter.Subtract(size);
      ok := false;
    }
  }

  /** The shared counter lives in memory taken from the allocator it is going to cap, and starts
      out charged with it. */
  method AllocateCounter(max: nat, storage: nat, available: bool) returns (r: Option<SingleThreadedCounter>)
    ensures r.Some? <==> storage <= max && available
    ensures r.Some? ==> fresh(r.value) && r.value.max == max && r.value.value == storage
  {
    var counter := new SingleThreadedCounter(max);
    var ok := Allocate(counter, storage, available);
    if !ok {
      return None;
    }
    var shared := new SingleThreadedCounter(max);
    ok := shared.TryAdd(counter.value);
    r := Some(shared);
  }

  // --------------------------------------------------------- interleaved threads

  /** Where a thread is in `allocate` or `deallocate`, and with how many bytes. */
  datatype Pc =
    | Idle
    | Adding(n: nat)                 // in try_add, counter not read yet
    | Trying(n: nat, read: nat)      // `read` is the value last read
    | Granted(n: nat)                // exchange succeeded
    | Refused(n: nat)
    | Reserved(n: nat)               // try_add has returned true
    | Subtracting(n: nat)            // in subtract, assertion not checked yet
    | Checked(n: nat)
    | Subtracted(n: nat)

  /** Operations on the counter as they are called, take effect and return. */
  datatype Event =
    | Called(t: nat, op: Op)
    | Effect(t: nat, op: Op, ok: bool)
    | Returned(t: nat, ok: bool)

  /** `live` are the sizes of the blocks in use; `kept` counts bytes freed by an allocator that
      does not subtract; `trace` is history. */
  datatype State = State(value: nat, threads: seq<Pc>, live: seq<nat>, kept: nat, trace: seq<Event>)

  /** The counter's type, its limit, the bytes it occupies itself, and whether freeing subtracts. */
  datatype Settings = Settings(modulus: nat, max: nat, own: nat, subtractOnDeallocate: bool)

  type Config = c: Settings | c.own <= c.max < c.modulus witness Settings(1, 0, 0, true)

  /** The choices a thread's next step depends on. */
  datatype Action =
    | StartAllocate(n: nat)
    | StartDeallocate(block: nat)
    | Proceed
    | Spurious                       // a weak exchange that fails without cause
    | UnderlyingFails

  datatype Outcome = Disabled | AssertionFails | Next(s: State)

  /** Arithmetic of the counter's unsigned type. */
  function Wrap(c: Config, x: int): (r: nat)
    ensures 0 <= x <= c.max ==> r == x
  {
    x % c.modulus
  }

  function To(s: State, t: nat, pc: Pc): State
    requires t < |s.threads|
  {
    s.(threads := s.threads[t := pc])
  }

  function Log(s: State, e: Event): State {
    s.(trace := s.trace + [e])
  }

  /** Reading the counter in try_add: a value that leaves no room decides the operation. */
  function Read(c: Config, s: State, t: nat, n: nat): State
    requires t < |s.threads| && n <= c.max
  {
    var s' := if s.value <= c.max - n then s else Log(s, Effect(t, Add(n), false));
    To(s', t, Trying(n, s.value))
  }

  /** A thread outside the allocator enters it. */
  function Enter(c: Config, s: State, t: nat, action: Action): (r: Outcome)
    requires t < |s.threads|
    ensures r != AssertionFails
  {
    match action
    case StartAllocate(n) =>
      if n >= c.modulus then Disabled else Next(To(Log(s, Called(t, Add(n))), t, Adding(n)))
    case StartDeallocate(block) =>
      if block >= |s.live| then Disabled
      else
        var n := s.live[block];
        var s' := s.(live := s.live[..block] + s.live[block + 1..]);
        if c.subtractOnDeallocate then Next(To(Log(s', Called(t, Sub(n))), t, Subtracting(n)))
        else Next(s'.(kept := s.kept + n))
    case _ => Disabled
  }

  /** One turn of the exchange loop. */
  function Exchange(c: Config, s: State, t: nat, action: Action, n: nat, read: nat): Outcome
    requires t < |s.threads|
  {
    if n > c.max then Disabled
    else if read > c.max - n then Next(To(s, t, Refused(n)))
    else if s.value == read && action != Spurious then
      Next(To(Log(s.(value := Wrap(c, read + n)), Effect(t, Add(n), true)), t, Granted(n)))
    else Next(Read(c, s, t, n))
  }

  function Step(c: Config, s: State, t: nat, action: Action): Outcome {
    if t >= |s.threads| then Disabled
    else
      match s.threads[t]
      case Idle => Enter(c, s, t, action)
      case Adding(n) =>
        if n > c.max then Next(To(Log(s, Effect(t, Add(n), false)), t, Refused(n)))
        else Next(Read(c, s, t, n))
      case Trying(n, read) => Exchange(c, s, t, action, n, read)
      case Granted(n) => Next(To(Log(s, Returned(t, true)), t, Reserved(n)))
      case Refused(n) => Next(To(Log(s, Returned(t, false)), t, Idle))
      case Reserved(n) =>
        if action == UnderlyingFails then Next(To(Log(s, Called(t, Sub(n))), t, Subtracting(n)))
        else Next(To(s.(live := s.live + [n]), t, Idle))
      case Subtracting(n) => if s.value >= n then Next(To(s, t, Checked(n))) else AssertionFails
      case Checked(n) =>
        Next(To(Log(s.(value := Wrap(c, s.value - n)), Effect(t, Sub(n), true)), t, Subtracted(n)))
      case Subtracted(n) => Next(To(Log(s, Returned(t, true)), t, Idle))
  }

  function Start(c: Config, threads: nat): State {
    State(c.own, seq(threads, _ => Idle), [], 0, [])
  }

  /** Any interleaving: which thread moves next, and how. */
  function Run(c: Config, s: State, schedule: seq<(nat, Action)>): Outcome
    decreases |schedule|
  {
    if schedule == [] then Next(s)
    else
      match Step(c, s, schedule[0].0, schedule[0].1)
      case Next(s') => Run(c, s', schedule[1..])
      case stuck => stuck
  }

  // ----------------------------------------------------------------- the bound

  function Sum(sizes: seq<nat>): nat {
    if sizes == [] then 0 else sizes[0] + Sum(sizes[1..])
  }

  /** Bytes that are on the counter on behalf of a thread rather than of a block. */
  function Holds(pc: Pc): nat {
    match pc
    case Granted(n) => n
    case Reserved(n) => n
    case Subtracting(n) => n
    case Checked(n) => n
    case _ => 0
  }

  function Held(threads: seq<Pc>): nat {
    if threads == [] then 0 else Holds(threads[0]) + Held(threads[1..])
  }

  lemma {:induction false} SumConcat(a: seq<nat>, b: seq<nat>)
    ensures Sum(a + b) == Sum(a) + Sum(b)
  {
    if a == [] {
      assert a + b == b;
    } else {
      assert (a + b)[0] == a[0] && (a + b)[1..] == a[1..] + b;
      SumConcat(a[1..], b);
    }
  }

  lemma SumOne(n: nat)
    ensures Sum([n]) == n
  {
  }

  lemma SumRemove(sizes: seq<nat>, i: nat)
    requires i < |sizes|
    ensures Sum(sizes[..i] + sizes[i + 1..]) == Sum(sizes) - sizes[i]
  {
    SumConcat(sizes[..i], sizes[i + 1..]);
    SumConcat(sizes[..i], [sizes[i]] + sizes[i + 1..]);
    SumConcat([sizes[i]], sizes[i + 1..]);
    assert sizes == sizes[..i] + ([sizes[i]] + sizes[i + 1..]);
  }

  lemma {:induction false} HeldUpdate(threads: seq<Pc>, t: nat, pc: Pc)
    requires t < |threads|
    ensures Held(threads[t := pc]) == Held(threads) - Holds(threads[t]) + Holds(pc)
    ensures Holds(threads[t]) <= Held(threads)
  {
    if t > 0 {
      assert threads[t := pc][1..] == threads[1..][t - 1 := pc];
      HeldUpdate(threads[1..], t - 1, pc);
    } else {
      assert threads[t := pc][1..] == threads[1..];
    }
  }

  lemma {:induction false} NothingHeld(threads: seq<Pc>)
    requires forall t :: 0 <= t < |threads| ==> Holds(threads[t]) == 0
    ensures Held(threads) == 0
  {
    if threads != [] {
      NothingHeld(threads[1..]);
    }
  }

  /** Every byte on the counter is its own, a live block's, a thread's, or was never subtracted. */
  predicate Balanced(c: Config, s: State) {
    && s.value == c.own + Sum(s.live) + Held(s.threads) + s.kept
    && s.value <= c.max
    && (c.subtractOnDeallocate ==> s.kept == 0)
  }

  /** Thread `t` goes to `pc`; what it no longer holds has gone to a block or off the counter. */
  lemma Moved(c: Config, s: State, t: nat, pc: Pc, s': State)
    requires Balanced(c, s) && t < |s.threads| && s'.threads == s.threads[t := pc]
    requires s'.value - Sum(s'.live) - s'.kept - Holds(pc) == s.value - Sum(s.live) - s.kept - Holds(s.threads[t])
    requires s'.value <= c.max && (c.subtractOnDeallocate ==> s'.kept == s.kept)
    ensures Balanced(c, s')
  {
    hide Sum, Held;
    HeldUpdate(s.threads, t, pc);
  }

  lemma HoldsAtMost(c: Config, s: State, t: nat)
    requires Balanced(c, s) && t < |s.threads|
    ensures Holds(s.threads[t]) <= s.value
  {
    hide Sum, Held;
    HeldUpdate(s.threads, t, s.threads[t]);
  }

  lemma EnterBalanced(c: Config, s: State, t: nat, action: Action)
    requires Balanced(c, s) && t < |s.threads| && s.threads[t] == Idle && Enter(c, s, t, action).Next?
    ensures Balanced(c, Enter(c, s, t, action).s)
  {
    hide Sum, Held, Balanced;
    var s' := Enter(c, s, t, action).s;
    assert s.value <= c.max by { assert Balanced(c, s); BalancedValue(c, s); }
    if action.StartDeallocate? {
      SumRemove(s.live, action.block);
      assert s.threads[t := Idle] == s.threads;
      Moved(c, s, t, s'.threads[t], s');
    } else {
      Moved(c, s, t, s'.threads[t], s');
    }
  }

  lemma BalancedValue(c: Config, s: State)
    requires Balanced(c, s)
    ensures s.value <= c.max
  {
  }

  lemma ExchangeBalanced(c: Config, s: State, t: nat, action: Action, n: nat, read: nat)
    requires Balanced(c, s) && t < |s.threads| && s.threads[t] == Trying(n, read)
    ensures Exchange(c, s, t, action, n, read) != AssertionFails
    ensures Exchange(c, s, t, action, n, read).Next? ==> Balanced(c, Exchange(c, s, t, action, n, read).s)
  {
    hide Sum, Held, Balanced, Wrap;
    var r := Exchange(c, s, t, action, n, read);
    BalancedValue(c, s);
    if r.Next? {
      Moved(c, s, t, r.s.threads[t], r.s);
    }
  }

  /** A thread whose allocation has been charged takes the block, or gives up and will subtract it. */
  lemma ReservedBalanced(c: Config, s: State, t: nat, action: Action)
    requires Balanced(c, s) && t < |s.threads| && s.threads[t].Reserved?
    ensures Step(c, s, t, action).Next? && Balanced(c, Step(c, s, t, action).s)
  {
    hide Sum, Held, Balanced, Wrap, Enter, Exchange, Read;
    var n := s.threads[t].n;
    BalancedValue(c, s);
    SumConcat(s.live, [n]);
    SumOne(n);
    var s' := Step(c, s, t, action).s;
    Moved(c, s, t, s'.threads[t], s');
  }

  lemma StepBalanced(c: Config, s: State, t: nat, action: Action)
    requires Balanced(c, s)
    ensures Step(c, s, t, action) != AssertionFails
    ensures Step(c, s, t, action).Next? ==> Balanced(c, Step(c, s, t, action).s)
  {
    hide Sum, Held, Balanced, Enter, Exchange, Wrap;
    if t < |s.threads| {
      BalancedValue(c, s);
      HoldsAtMost(c, s, t);
      match s.threads[t]
      case Idle =>
        if Step(c, s, t, action).Next? {
          EnterBalanced(c, s, t, action);
        }
      case Trying(n, read) => ExchangeBalanced(c, s, t, action, n, read);
      case Reserved(n) => ReservedBalanced(c, s, t, action);
      case _ =>
        var s' := Step(c, s, t, action).s;
        Moved(c, s, t, s'.threads[t], s');
    }
  }

  // ----------------------------------------------------------- linearizability

  /** The sequential counter run over the effects of a history, in their order; `None` if one of
      them has another result than the sequential counter gives. */
  function Replay(c: Config, trace: seq<Event>): Option<nat> {
    if trace == [] then Some(c.own)
    else
      match Replay(c, trace[..|trace| - 1])
      case None => None
      case Some(value) =>
        match trace[|trace| - 1]
        case Effect(_, op, ok) =>
          (match Apply(c.max, value, op)
           case None => None
           case Some((value', ok')) => if ok == ok' then Some(value') else None)
        case _ => Some(value)
  }

  datatype Phase = Quiet | Pending(op: Op) | Decided(op: Op, ok: bool) | Broken

  /** A thread's own events must alternate: call, one effect of what was called, return of that
      effect's result. */
  function After(phase: Phase, t: nat, e: Event): Phase {
    if e.t != t then phase
    else
      match (phase, e)
      case (Quiet, Called(_, op)) => Pending(op)
      case (Pending(op), Effect(_, op', ok)) => if op == op' then Decided(op, ok) else Broken
      case (Decided(_, ok), Returned(_, ok')) => if ok == ok' then Quiet else Broken
      case _ => Broken
  }

  function PhaseOf(trace: seq<Event>, t: nat): Phase {
    if trace == [] then Quiet else After(PhaseOf(trace[..|trace| - 1], t), t, trace[|trace| - 1])
  }

  lemma Logged(c: Config, trace: seq<Event>, e: Event)
    ensures forall t: nat :: PhaseOf(trace + [e], t) == After(PhaseOf(trace, t), t, e)
    ensures !e.Effect? ==> Replay(c, trace + [e]) == Replay(c, trace)
    ensures e.Effect? && Replay(c, trace).Some? && Apply(c.max, Replay(c, trace).value, e.op).Some?
            && Apply(c.max, Replay(c, trace).value, e.op).value.1 == e.ok
            ==> Replay(c, trace + [e]) == Some(Apply(c.max, Replay(c, trace).value, e.op).value.0)
  {
    assert (trace + [e])[..|trace|] == trace;
  }

  function Expected(c: Config, pc: Pc): Phase {
    match pc
    case Idle => Quiet
    case Adding(n) => Pending(Add(n))
    case Trying(n, read) => if read <= c.max - n then Pending(Add(n)) else Decided(Add(n), false)
    case Granted(n) => Decided(Add(n), true)
    case Refused(n) => Decided(Add(n), false)
    case Reserved(n) => Quiet
    case Subtracting(n) => Pending(Sub(n))
    case Checked(n) => Pending(Sub(n))
    case Subtracted(n) => Decided(Sub(n), true)
  }

  /** Every operation takes effect at one moment between its call and its return, and the effects
      in order are a run of the sequential counter that ends with the shared one's value. */
  ghost predicate Linear(c: Config, s: State) {
    && Replay(c, s.trace) == Some(s.value)
    && (forall t: nat :: PhaseOf(s.trace, t) == if t < |s.threads| then Expected(c, s.threads[t]) else Quiet)
    && forall t :: 0 <= t < |s.threads| && s.threads[t].Trying? ==> s.threads[t].n <= c.max
  }

  /** A step with one event. */
  lemma Happened(c: Config, s: State, t: nat, pc: Pc, e: Event, s': State)
    requires Linear(c, s) && t < |s.threads| && e.t == t
    requires s'.threads == s.threads[t := pc] && s'.trace == s.trace + [e]
    requires After(Expected(c, s.threads[t]), t, e) == Expected(c, pc)
    requires if e.Effect? then Apply(c.max, s.value, e.op) == Some((s'.value, e.ok)) else s'.value == s.value
    requires pc.Trying? ==> pc.n <= c.max
    ensures Linear(c, s')
  {
    hide Replay, PhaseOf, Expected, Apply;
    Logged(c, s.trace, e);
  }

  /** A step without an event. */
  lemma Passed(c: Config, s: State, t: nat, pc: Pc, s': State)
    requires Linear(c, s) && t < |s.threads|
    requires s'.threads == s.threads[t := pc] && s'.trace == s.trace && s'.value == s.value
    requires Expected(c, s.threads[t]) == Expected(c, pc)
    requires pc.Trying? ==> pc.n <= c.max
    ensures Linear(c, s')
  {
    hide Replay, PhaseOf, Expected;
  }

  lemma ReadLinear(c: Config, s: State, t: nat, n: nat)
    requires Linear(c, s) && t < |s.threads| && n <= c.max && Expected(c, s.threads[t]) == Pending(Add(n))
    ensures Linear(c, Read(c, s, t, n))
  {
    hide Linear;
    var s' := Read(c, s, t, n);
    if s.value <= c.max - n {
      Passed(c, s, t, Trying(n, s.value), s');
    } else {
      Happened(c, s, t, Trying(n, s.value), Effect(t, Add(n), false), s');
    }
  }

  lemma EnterLinear(c: Config, s: State, t: nat, action: Action)
    requires Linear(c, s) && t < |s.threads| && s.threads[t] == Idle && Enter(c, s, t, action).Next?
    ensures Linear(c, Enter(c, s, t, action).s)
  {
    hide Linear;
    var s' := Enter(c, s, t, action).s;
    if |s'.trace| == |s.trace| {
      assert s.threads[t := Idle] == s.threads;
      Passed(c, s, t, Idle, s');
    } else {
      Happened(c, s, t, s'.threads[t], s'.trace[|s.trace|], s');
    }
  }

  lemma ExchangeLinear(c: Config, s: State, t: nat, action: Action)
    requires Linear(c, s) && t < |s.threads| && s.threads[t].Trying?
    requires Exchange(c, s, t, action, s.threads[t].n, s.threads[t].read).Next?
    ensures Linear(c, Exchange(c, s, t, action, s.threads[t].n, s.threads[t].read).s)
  {
    hide Linear, Read, Wrap;
    var n, read := s.threads[t].n, s.threads[t].read;
    var s' := Exchange(c, s, t, action, n, read).s;
    if read > c.max - n {
      Passed(c, s, t, Refused(n), s');
    } else if s.value == read && action != Spurious {
      Happened(c, s, t, Granted(n), Effect(t, Add(n), true), s');
    } else {
      ReadLinear(c, s, t, n);
    }
  }

  lemma {:induction false} StepLinear(c: Config, s: State, t: nat, action: Action)
    requires Balanced(c, s) && Linear(c, s) && Step(c, s, t, action).Next?
    ensures Linear(c, Step(c, s, t, action).s)
  {
    HoldsAtMost(c, s, t);
    BalancedValue(c, s);
    hide Linear, Balanced, Read, Enter, Exchange, Wrap;
    var s' := Step(c, s, t, action).s;
    match s.threads[t]
    case Idle => EnterLinear(c, s, t, action);
    case Adding(n) =>
      if n > c.max {
        Happened(c, s, t, Refused(n), Effect(t, Add(n), false), s');
      } else {
        ReadLinear(c, s, t, n);
      }
    case Trying(_, _) => ExchangeLinear(c, s, t, action);
    case Granted(n) => Happened(c, s, t, Reserved(n), Returned(t, true), s');
    case Refused(n) => Happened(c, s, t, Idle, Returned(t, false), s');
    case Reserved(n) =>
      if action == UnderlyingFails {
        Happened(c, s, t, Subtracting(n), Called(t, Sub(n)), s');
      } else {
        Passed(c, s, t, Idle, s');
      }
    case Subtracting(n) => Passed(c, s, t, Checked(n), s');
    case Checked(n) => Happened(c, s, t, Subtracted(n), Effect(t, Sub(n), true), s');
    case Subtracted(n) => Happened(c, s, t, Idle, Returned(t, true), s');
  }

  lemma StartHolds(c: Config, threads: nat)
    ensures Balanced(c, Start(c, threads)) && Linear(c, Start(c, threads))
  {
    NothingHeld(Start(c, threads).threads);
  }

  /** No schedule makes the assertion in subtract fail, and all states on the way are good. */
  lemma {:induction false} RunHolds(c: Config, s: State, schedule: seq<(nat, Action)>)
    requires Balanced(c, s) && Linear(c, s)
    ensures Run(c, s, schedule) != AssertionFails
    ensures Run(c, s, schedule).Next? ==> Balanced(c, Run(c, s, schedule).s) && Linear(c, Run(c, s, schedule).s)
    decreases |schedule|
  {
    hide Balanced, Linear, Step;
    if schedule != [] {
      StepBalanced(c, s, schedule[0].0, schedule[0].1);
      if Step(c, s, schedule[0].0, schedule[0].1).Next? {
        StepLinear(c, s, schedule[0].0, schedule[0].1);
        RunHolds(c, Step(c, s, schedule[0].0, schedule[0].1).s, schedule[1..]);
      }
    }
  }

  /** Main result: in every interleaving of any number of threads, at every moment, the memory in
      use is at most what the counter says, which is at most the limit; the counter's assertion
      never fires; and the history is one of the sequential counter. */
  lemma MemoryBound(c: Config, threads: nat, schedule: seq<(nat, Action)>)
    ensures var r := Run(c, Start(c, threads), schedule);
            && r != AssertionFails
            && (r.Next? ==> && c.own + Sum(r.s.live) <= r.s.value <= c.max
                            && Replay(c, r.s.trace) == Some(r.s.value)
                            && forall t: nat :: PhaseOf(r.s.trace, t) != Broken)
  {
    StartHolds(c, threads);
    RunHolds(c, Start(c, threads), schedule);
  }

  /** When no thread is inside the allocator the counter is exact. */
  lemma Quiescence(c: Config, threads: nat, schedule: seq<(nat, Action)>)
    requires c.subtractOnDeallocate
    ensures var r := Run(c, Start(c, threads), schedule);
            r.Next? && (forall t :: 0 <= t < |r.s.threads| ==> r.s.threads[t] == Idle)
            ==> r.s.value == c.own + Sum(r.s.live)
  {
    StartHolds(c, threads);
    RunHolds(c, Start(c, threads), schedule);
    var r := Run(c, Start(c, threads), schedule);
    if r.Next? && forall t :: 0 <= t < |r.s.threads| ==> r.s.threads[t] == Idle {
      NothingHeld(r.s.threads);
    }
  }
}
