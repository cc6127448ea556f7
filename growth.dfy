/** The capacity-growth policy of the vector: when an append or insert finds
    every slot in use, capacity becomes `grow(capacity)`; otherwise it stays. */
module Growth {

  /** The policy the constructors install when the caller gives none:
      double the current capacity. */
  function Doubling(c: nat): (r: nat)
    ensures 0 < c ==> c < r
  {
    c * 2
  }

  /** The caller's obligation on a growth policy: from every capacity the
      vector can reach (never below its initial capacity) it must make room
      for at least one more element. The policy itself is never checked. */
  ghost predicate Progresses(grow: nat -> nat, from: nat)
  {
    forall c: nat :: from <= c ==> c < grow(c)
  }

  /** Capacity after one append or insert into a vector holding `size`
      elements in `cap` slots. */
  function NextCapacity(grow: nat -> nat, size: nat, cap: nat): nat
  {
    if size == cap then grow(cap) else cap
  }

  /** Capacity after `n` successive appends to an empty vector that starts
      with `cap` slots, as the list constructors perform them. */
  function CapacityAfterAdds(grow: nat -> nat, cap: nat, n: nat): nat
  {
    if n == 0 then cap else NextCapacity(grow, n - 1, CapacityAfterAdds(grow, cap, n - 1))
  }

  /** Under a progressing policy, `n` appends never shrink capacity, each
      append keeps it or raises it, and there is always room for all `n`. */
  lemma {:induction false} AddsKeepRoom(grow: nat -> nat, cap: nat, n: nat)
    requires Progresses(grow, cap)
    ensures cap <= CapacityAfterAdds(grow, cap, n)
    ensures n <= CapacityAfterAdds(grow, cap, n)
    ensures CapacityAfterAdds(grow, cap, n) <= CapacityAfterAdds(grow, cap, n + 1)
  {
    if n > 0 {
      AddsKeepRoom(grow, cap, n - 1);
    }
  }

  /** Capacity changes at an append only when the vector is full on entry. */
  lemma GrowsOnlyWhenFull(grow: nat -> nat, cap: nat, n: nat)
    requires CapacityAfterAdds(grow, cap, n + 1) != CapacityAfterAdds(grow, cap, n)
    ensures CapacityAfterAdds(grow, cap, n) == n
  {
  }

  /** As long as the appended elements fit, no growth happens at all. */
  lemma {:induction false} NoGrowthWhileRoom(grow: nat -> nat, cap: nat, n: nat)
    requires n <= cap
    ensures CapacityAfterAdds(grow, cap, n) == cap
  {
    if n > 0 {
      NoGrowthWhileRoom(grow, cap, n - 1);
    }
  }

  /** The injected policy, not a fixed doubling, governs growth: with
      `c -> c + 1`, appending one element more than the initial capacity
      leaves exactly one slot more than the initial capacity. */
  lemma IncrementPolicyGrowsByOne(cap: nat)
    ensures CapacityAfterAdds((c: nat) => c + 1, cap, cap + 1) == cap + 1
  {
    NoGrowthWhileRoom((c: nat) => c + 1, cap, cap);
  }

  /** With the default policy and 10 initial slots, ten appends fit and the
      eleventh doubles the capacity to 20. */
  lemma DoublingFromTen()
    ensures CapacityAfterAdds(Doubling, 10, 10) == 10
    ensures CapacityAfterAdds(Doubling, 10, 11) == 20
  {
  }
}
