/** Counting the threads that are at certain places of a program. */
module Threads {
  import opened Numbers

  function Indicator(b: bool): nat { if b then 1 else 0 }

  /** How many threads are at a place that satisfies `p`. */
  ghost function Count<Pc(!new)>(threads: map<nat, Pc>, p: Pc -> bool): nat {
    |At(threads, p)|
  }

  ghost function At<Pc(!new)>(threads: map<nat, Pc>, p: Pc -> bool): set<nat> {
    set t | t in threads && p(threads[t])
  }

  /** A step of one thread changes a count by that thread's old and new place only. */
  lemma CountMove<Pc(!new)>(threads: map<nat, Pc>, t: nat, pc: Pc, p: Pc -> bool)
    requires t in threads
    ensures Count(threads[t := pc], p) + Indicator(p(threads[t])) == Count(threads, p) + Indicator(p(pc))
  {
    var others := At(threads, p) - {t};
    assert At(threads, p) == if p(threads[t]) then others + {t} else others;
    assert At(threads[t := pc], p) == if p(pc) then others + {t} else others;
  }

  lemma CountPositive<Pc(!new)>(threads: map<nat, Pc>, t: nat, p: Pc -> bool)
    requires t in threads && p(threads[t])
    ensures Count(threads, p) >= 1
  {
    assert t in At(threads, p);
  }

  lemma CountTwo<Pc(!new)>(threads: map<nat, Pc>, t: nat, u: nat, p: Pc -> bool)
    requires t in threads && p(threads[t]) && u in threads && p(threads[u]) && t != u
    ensures Count(threads, p) >= 2
  {
    assert {t, u} <= At(threads, p);
    SubsetSize({t, u}, At(threads, p));
  }

  lemma {:induction false} SubsetSize<T>(a: set<T>, b: set<T>)
    requires a <= b
    ensures |a| <= |b|
  {
    if x :| x in a {
      SubsetSize(a - {x}, b - {x});
    }
  }

  lemma CountWitness<Pc(!new)>(threads: map<nat, Pc>, p: Pc -> bool) returns (t: nat)
    requires Count(threads, p) > 0
    ensures t in threads && p(threads[t])
  {
    t :| t in At(threads, p);
  }

  // ---------- Sums of ranks ----------

  function AtLeast<Pc(!new)>(rank: Pc -> nat, n: nat): Pc -> bool { pc => rank(pc) >= n }

  /** The sum over all threads of the rank of their place, ranks above `n` counting as `n`. */
  ghost function RankSum<Pc(!new)>(threads: map<nat, Pc>, rank: Pc -> nat, n: nat): nat {
    if n == 0 then 0 else Count(threads, AtLeast(rank, n)) + RankSum(threads, rank, n - 1)
  }

  lemma {:induction false} RankSumMove<Pc(!new)>(threads: map<nat, Pc>, t: nat, pc: Pc, rank: Pc -> nat, n: nat)
    requires t in threads
    ensures RankSum(threads[t := pc], rank, n) + Min(rank(threads[t]), n)
         == RankSum(threads, rank, n) + Min(rank(pc), n)
  {
    if n > 0 {
      CountMove(threads, t, pc, AtLeast(rank, n));
      RankSumMove(threads, t, pc, rank, n - 1);
    }
  }
}
