/** Counting the numbered structs that are not in a set: what generating code and building a table
    for a cyclic schema use up. */
module Counting {
  /** How many of the first `n` structs are not in `done`. */
  function Left(n: nat, done: set<nat>): nat {
    if n == 0 then 0 else Left(n - 1, done) + if n - 1 in done then 0 else 1
  }

  lemma {:induction false} LeftShrinks(n: nat, done: set<nat>, more: set<nat>)
    requires done <= more
    ensures Left(n, more) <= Left(n, done)
    ensures forall s :: s < n && s in more && s !in done ==> Left(n, more) < Left(n, done)
  {
    if n > 0 {
      LeftShrinks(n - 1, done, more);
    }
  }

  lemma {:induction false} LeftAdds(n: nat, done: set<nat>, s: nat)
    requires s !in done
    ensures Left(n, done + {s}) == Left(n, done) - if s < n then 1 else 0
  {
    if n > 0 {
      LeftAdds(n - 1, done, s);
    }
  }

  lemma {:induction false} NothingListed(n: nat)
    ensures Left(n, {}) == n
  {
    if n > 0 {
      NothingListed(n - 1);
    }
  }
}
