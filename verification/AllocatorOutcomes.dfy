/** What calls of the allocator come to: which blocks there are after any interleaving, and what a thread
    that is not interfered with achieves. */
module AllocatorOutcomes {
  import opened CappedAllocator

  // ------------------------------------------------------------ any interleaving

  /** The block that a step obtains: that of a request that has been granted and for which the underlying
      allocation succeeds. */
  function Obtains(s: State, t: nat, action: Action): multiset<nat> {
    if t < |s.threads| && s.threads[t].Reserved? && action != UnderlyingFails then multiset{s.threads[t].n}
    else multiset{}
  }

  /** The block that a step gives back. */
  function Releases(s: State, t: nat, action: Action): multiset<nat> {
    if t < |s.threads| && s.threads[t] == Idle && action.StartDeallocate? && action.block < |s.live|
    then multiset{s.live[action.block]}
    else multiset{}
  }

  function Obtained(c: Config, s: State, schedule: seq<(nat, Action)>): multiset<nat>
    decreases |schedule|
  {
    if schedule == [] then multiset{}
    else
      Obtains(s, schedule[0].0, schedule[0].1)
      + match Step(c, s, schedule[0].0, schedule[0].1)
        case Next(s') => Obtained(c, s', schedule[1..])
        case _ => multiset{}
  }

  function Released(c: Config, s: State, schedule: seq<(nat, Action)>): multiset<nat>
    decreases |schedule|
  {
    if schedule == [] then multiset{}
    else
      Releases(s, schedule[0].0, schedule[0].1)
      + match Step(c, s, schedule[0].0, schedule[0].1)
        case Next(s') => Released(c, s', schedule[1..])
        case _ => multiset{}
  }

  lemma Without(live: seq<nat>, i: nat)
    requires i < |live|
    ensures multiset(live[..i] + live[i + 1..]) + multiset{live[i]} == multiset(live)
  {
    assert live == live[..i] + [live[i]] + live[i + 1..];
  }

  lemma EnterBlocks(c: Config, s: State, t: nat, action: Action)
    requires t < |s.threads| && s.threads[t] == Idle && Enter(c, s, t, action).Next?
    ensures var s' := Enter(c, s, t, action).s;
            && multiset(s'.live) + Releases(s, t, action) == multiset(s.live)
            && s'.kept - s.kept
               == if action.StartDeallocate? && !c.subtractOnDeallocate then s.live[action.block] else 0
  {
    if action.StartDeallocate? {
      Without(s.live, action.block);
    }
  }

  lemma StepBlocks(c: Config, s: State, t: nat, action: Action)
    requires Step(c, s, t, action).Next?
    ensures multiset(Step(c, s, t, action).s.live) + Releases(s, t, action)
         == multiset(s.live) + Obtains(s, t, action)
  {
    hide Wrap, Enter, Releases;
    assert s.threads[t] != Idle ==> Releases(s, t, action) == multiset{} by { NothingReleased(s, t, action); }
    match s.threads[t]
    case Idle => EnterBlocks(c, s, t, action);
    case Trying(n, read) => assert Exchange(c, s, t, action, n, read).s.live == s.live;
    case _ =>
  }

  lemma NothingReleased(s: State, t: nat, action: Action)
    ensures t < |s.threads| && s.threads[t] != Idle ==> Releases(s, t, action) == multiset{}
  {
  }

  /** In every interleaving the blocks in use are those obtained and not yet given back: a request that has
      been granted and whose underlying allocation succeeds ends as a block, and no other does. */
  lemma {:induction false} BlocksKept(c: Config, s: State, schedule: seq<(nat, Action)>)
    requires Run(c, s, schedule).Next?
    ensures multiset(Run(c, s, schedule).s.live) + Released(c, s, schedule)
         == multiset(s.live) + Obtained(c, s, schedule)
    decreases |schedule|
  {
    hide Step, Obtains, Releases;
    if schedule != [] {
      var (t, action) := schedule[0];
      StepBlocks(c, s, t, action);
      var s', rest := Step(c, s, t, action).s, schedule[1..];
      BlocksKept(c, s', rest);
      assert Run(c, s, schedule) == Run(c, s', rest);
      Summed(multiset(s.live), multiset(s'.live), multiset(Run(c, s', rest).s.live), Releases(s, t, action),
             Released(c, s', rest), Obtains(s, t, action), Obtained(c, s', rest));
    }
  }

  lemma Summed(a: multiset<nat>, b: multiset<nat>, c: multiset<nat>, r: multiset<nat>, r': multiset<nat>,
               o: multiset<nat>, o': multiset<nat>)
    requires b + r == a + o && c + r' == b + o'
    ensures c + (r + r') == a + (o + o')
  {
    assert c + (r + r') == (c + r') + r == (b + r) + o';
  }

  // -------------------------------------------------------------- a thread alone

  /** Thread `t` moves `k` times while the others stand still. */
  function Alone(c: Config, s: State, t: nat, action: Action, k: nat): Outcome
    decreases k
  {
    if k == 0 then Next(s)
    else
      match Step(c, s, t, action)
      case Next(s') => Alone(c, s', t, action, k - 1)
      case stuck => stuck
  }

  /** That is one of the schedules. */
  lemma {:induction false} AloneRuns(c: Config, s: State, t: nat, action: Action, k: nat)
    ensures Alone(c, s, t, action, k) == Run(c, s, seq(k, _ => (t, action)))
    decreases k
  {
    if k > 0 {
      var schedule: seq<(nat, Action)> := seq(k, _ => (t, action));
      assert schedule[1..] == seq(k - 1, _ => (t, action));
      match Step(c, s, t, action)
      case Next(s') => AloneRuns(c, s', t, action, k - 1);
      case _ =>
    }
  }

  /** A thread inside the allocator can always move. */
  lemma NeverStuck(c: Config, s: State, t: nat, action: Action)
    requires Balanced(c, s) && Linear(c, s) && t < |s.threads| && s.threads[t] != Idle
    ensures Step(c, s, t, action).Next?
  {
    HoldsAtMost(c, s, t);
    hide Balanced, Read, Wrap, Replay, PhaseOf;
  }

  /** In at most `k` moves the thread has left the allocator, and these are the value and the blocks. */
  ghost predicate Leaves(c: Config, s: State, t: nat, action: Action, k: nat, value: nat, live: seq<nat>) {
    exists j :: 0 <= j <= k && Left(c, s, t, action, j, value, live)
  }

  predicate Left(c: Config, s: State, t: nat, action: Action, k: nat, value: nat, live: seq<nat>) {
    match Alone(c, s, t, action, k)
    case Next(s') =>
      t < |s.threads| && s'.threads == s.threads[t := Idle] && s'.value == value && s'.live == live && s'.kept == s.kept
    case _ => false
  }

  lemma Later(c: Config, s: State, t: nat, action: Action, k: nat, value: nat, live: seq<nat>)
    requires Step(c, s, t, action).Next? && t < |s.threads|
    requires var s' := Step(c, s, t, action).s;
             && s'.threads == s.threads[t := s'.threads[t]] && s'.kept == s.kept
             && Leaves(c, s', t, action, k, value, live)
    ensures Leaves(c, s, t, action, k + 1, value, live)
  {
    var s' := Step(c, s, t, action).s;
    var j :| 0 <= j <= k && Left(c, s', t, action, j, value, live);
    hide Step;
    assert s'.threads[t := Idle] == s.threads[t := Idle];
    assert Left(c, s, t, action, j + 1, value, live);
  }

  /** Value and blocks once the thread has left: `fails` says whether the underlying allocation does. */
  function Comes(c: Config, s: State, t: nat, fails: bool): (int, seq<nat>)
    requires t < |s.threads|
  {
    match s.threads[t]
    case Adding(n) => if s.value + n <= c.max && !fails then (s.value + n, s.live + [n]) else (s.value, s.live)
    case Trying(n, read) =>
      if read + n <= c.max && s.value + n <= c.max && !fails then (s.value + n, s.live + [n]) else (s.value, s.live)
    case Granted(n) => if fails then (s.value - n, s.live) else (s.value, s.live + [n])
    case Reserved(n) => if fails then (s.value - n, s.live) else (s.value, s.live + [n])
    case Subtracting(n) => (s.value - n, s.live)
    case Checked(n) => (s.value - n, s.live)
    case _ => (s.value, s.live)
  }

  /** How many moves are left at most. */
  function Moves(s: State, t: nat): nat
    requires t < |s.threads|
  {
    match s.threads[t]
    case Idle => 0
    case Adding(_) => 7
    case Trying(_, read) => if read == s.value then 6 else 7
    case Granted(_) => 5
    case Reserved(_) => 4
    case Refused(_) => 1
    case Subtracting(_) => 3
    case Checked(_) => 2
    case Subtracted(_) => 1
  }

  /** A move without a step back. */
  ghost predicate Near(c: Config, s: State, t: nat, action: Action, s': State)
    requires t < |s.threads|
  {
    && |s'.threads| == |s.threads| && s'.threads == s.threads[t := s'.threads[t]] && s'.kept == s.kept
    && Moves(s', t) < Moves(s, t)
    && Comes(c, s', t, action == UnderlyingFails) == Comes(c, s, t, action == UnderlyingFails)
  }

  lemma AddingNears(c: Config, s: State, t: nat, action: Action, n: nat)
    requires t < |s.threads| && s.threads[t] == Adding(n)
    ensures Step(c, s, t, action).Next? && Near(c, s, t, action, Step(c, s, t, action).s)
  {
    hide Enter, Exchange, Wrap;
  }

  lemma TryingNears(c: Config, s: State, t: nat, action: Action, n: nat, read: nat)
    requires t < |s.threads| && s.threads[t] == Trying(n, read) && n <= c.max && s.value <= c.max
    requires action == Proceed || action == UnderlyingFails
    ensures Step(c, s, t, action).Next? && Near(c, s, t, action, Step(c, s, t, action).s)
  {
    hide Wrap, Enter;
  }

  lemma OthersNear(c: Config, s: State, t: nat, action: Action)
    requires t < |s.threads| && !(s.threads[t].Idle? || s.threads[t].Adding? || s.threads[t].Trying?)
    requires Holds(s.threads[t]) <= s.value <= c.max
    ensures Step(c, s, t, action).Next? && Near(c, s, t, action, Step(c, s, t, action).s)
  {
    hide Wrap, Enter, Exchange, Read;
  }

  lemma Nears(c: Config, s: State, t: nat, action: Action)
    requires Balanced(c, s) && Linear(c, s) && t < |s.threads| && s.threads[t] != Idle
    requires action == Proceed || action == UnderlyingFails
    ensures Step(c, s, t, action).Next? && Near(c, s, t, action, Step(c, s, t, action).s)
  {
    HoldsAtMost(c, s, t);
    BalancedValue(c, s);
    assert s.threads[t].Trying? ==> s.threads[t].n <= c.max;
    hide Balanced, Linear, Step, Near;
    match s.threads[t]
    case Adding(n) => AddingNears(c, s, t, action, n);
    case Trying(n, read) => TryingNears(c, s, t, action, n, read);
    case _ => OthersNear(c, s, t, action);
  }

  /** Left alone, a thread leaves the allocator after seven moves at most, with that result. */
  lemma {:induction false} EndsAlone(c: Config, s: State, t: nat, action: Action)
    requires Balanced(c, s) && Linear(c, s) && t < |s.threads|
    requires action == Proceed || action == UnderlyingFails
    ensures var (value, live) := Comes(c, s, t, action == UnderlyingFails);
            value >= 0 && Leaves(c, s, t, action, Moves(s, t), value, live)
    decreases Moves(s, t)
  {
    hide Balanced, Linear, Step, Comes, Moves;
    if s.threads[t] == Idle {
      assert s.threads[t := Idle] == s.threads;
      assert Comes(c, s, t, action == UnderlyingFails) == (s.value, s.live) by { AtRest(c, s, t, action); }
      assert Left(c, s, t, action, 0, s.value, s.live);
    } else {
      Nears(c, s, t, action);
      StepBalanced(c, s, t, action);
      StepLinear(c, s, t, action);
      var s' := Step(c, s, t, action).s;
      EndsAlone(c, s', t, action);
      var (value, live) := Comes(c, s, t, action == UnderlyingFails);
      Later(c, s, t, action, Moves(s', t), value, live);
      Sooner(c, s, t, action, Moves(s', t) + 1, Moves(s, t), value, live);
    }
  }

  lemma AtRest(c: Config, s: State, t: nat, action: Action)
    requires t < |s.threads| && s.threads[t] == Idle
    ensures Comes(c, s, t, action == UnderlyingFails) == (s.value, s.live)
  {
  }

  lemma Sooner(c: Config, s: State, t: nat, action: Action, k: nat, k': nat, value: nat, live: seq<nat>)
    requires Leaves(c, s, t, action, k, value, live) && k <= k'
    ensures Leaves(c, s, t, action, k', value, live)
  {
  }

  /** A thread that allocates `n` bytes without interference and spurious failures obtains a block, and the
      value rises by `n`, if that fits under the limit and the underlying allocation succeeds; otherwise value
      and blocks are as they were. */
  lemma AllocateAlone(c: Config, s: State, t: nat, n: nat, action: Action)
    requires Balanced(c, s) && Linear(c, s) && t < |s.threads| && s.threads[t] == Idle && n < c.modulus
    requires action == Proceed || action == UnderlyingFails
    ensures Step(c, s, t, StartAllocate(n)).Next?
    ensures var s' := Step(c, s, t, StartAllocate(n)).s;
            if s.value + n <= c.max && action == Proceed
            then Leaves(c, s', t, action, 7, s.value + n, s.live + [n])
            else Leaves(c, s', t, action, 7, s.value, s.live)
    ensures var s' := Step(c, s, t, StartAllocate(n)).s;
            s'.threads == s.threads[t := s'.threads[t]] && s'.kept == s.kept
  {
    hide Balanced, Linear, Step, Comes, Leaves;
    Entered(c, s, t, n, action);
    var s' := Step(c, s, t, StartAllocate(n)).s;
    StepBalanced(c, s, t, StartAllocate(n));
    StepLinear(c, s, t, StartAllocate(n));
    EndsAlone(c, s', t, action);
  }

  lemma Entered(c: Config, s: State, t: nat, n: nat, action: Action)
    requires t < |s.threads| && s.threads[t] == Idle && n < c.modulus
    ensures Step(c, s, t, StartAllocate(n)) == Next(To(Log(s, Called(t, Add(n))), t, Adding(n)))
    ensures var s' := To(Log(s, Called(t, Add(n))), t, Adding(n));
            && Moves(s', t) == 7
            && Comes(c, s', t, action == UnderlyingFails)
               == if s.value + n <= c.max && action != UnderlyingFails then (s.value + n, s.live + [n])
                  else (s.value, s.live)
  {
  }

  /** A thread that gives a block back removes it and, if freeing subtracts, its bytes from the value. */
  lemma DeallocateAlone(c: Config, s: State, t: nat, block: nat)
    requires Balanced(c, s) && Linear(c, s) && t < |s.threads| && s.threads[t] == Idle && block < |s.live|
    ensures Step(c, s, t, StartDeallocate(block)).Next?
    ensures var s' := Step(c, s, t, StartDeallocate(block)).s;
            var value, live := s.value - s.live[block], s.live[..block] + s.live[block + 1..];
            if c.subtractOnDeallocate then value >= 0 && Leaves(c, s', t, Proceed, 3, value, live)
            else s' == s.(live := live, kept := s.kept + s.live[block])
  {
    var s' := Step(c, s, t, StartDeallocate(block)).s;
    if c.subtractOnDeallocate {
      StepBalanced(c, s, t, StartDeallocate(block));
      StepLinear(c, s, t, StartDeallocate(block));
      EndsAlone(c, s', t, Proceed);
    }
  }
}
