/** Optional values. */
module Options {
  datatype Option<+T> = None | Some(value: T)
}

/** Facts about sequences. */
module Sequences {
  lemma Regroup<T>(front: seq<T>, x: T, back: seq<T>)
    ensures front + ([x] + back) == (front + [x]) + back
  {
  }

  lemma Associate<T>(a: seq<T>, b: seq<T>, c: seq<T>)
    ensures a + b + c == a + (b + c)
  {
  }

  lemma PrefixTransitive<T>(a: seq<T>, b: seq<T>, c: seq<T>)
    requires a <= b <= c
    ensures a <= c
  {
  }

  predicate HandsOn(holds: nat -> bool, m: nat) {
    holds(m) ==> holds(m + 1)
  }

  /** Induction along a sequence of places. */
  lemma {:induction false} HandedOn(holds: nat -> bool, i: nat, j: nat)
    requires i <= j && holds(i)
    requires forall m: nat {:trigger HandsOn(holds, m)} :: i <= m < j ==> HandsOn(holds, m)
    ensures holds(j)
    decreases j
  {
    if i < j {
      HandedOn(holds, i, j - 1);
      assert HandsOn(holds, j - 1);
    }
  }

  lemma {:induction false} PrefixesGrow<T>(f: nat -> seq<T>, i: nat, j: nat)
    requires i <= j && forall m: nat :: i <= m < j ==> f(m) <= f(m + 1)
    ensures f(i) <= f(j)
    decreases j
  {
    if i < j {
      PrefixesGrow(f, i, j - 1);
      PrefixTransitive(f(i), f(j - 1), f(j - 1 + 1));
    }
  }
}

/** Induction along infinite sequences of states. */
module Streams {
  ghost predicate Kept<S(!new)>(holds: S -> bool, next: (S, S) -> bool, s: S, s': S) {
    holds(s) && next(s, s') ==> holds(s')
  }

  ghost predicate StepsOn<S>(next: (S, S) -> bool, states: nat -> S, i: nat) {
    next(states(i), states(i + 1))
  }

  lemma {:induction false} HoldsInStream<S(!new)>(holds: S -> bool, next: (S, S) -> bool, states: nat -> S, i: nat)
    requires holds(states(0))
    requires forall s, s' {:trigger Kept(holds, next, s, s')} :: Kept(holds, next, s, s')
    requires forall j: nat {:trigger StepsOn(next, states, j)} :: StepsOn(next, states, j)
    ensures holds(states(i))
    decreases i
  {
    if i > 0 {
      HoldsInStream(holds, next, states, i - 1);
      assert StepsOn(next, states, i - 1) && Kept(holds, next, states(i - 1), states(i - 1 + 1));
    }
  }

  datatype Rank = Rank(a: nat, b: nat, c: nat, d: nat)

  /** The lexicographic order. */
  predicate Below(x: Rank, y: Rank) {
    || x.a < y.a
    || (x.a == y.a && x.b < y.b)
    || (x.a == y.a && x.b == y.b && x.c < y.c)
    || (x.a == y.a && x.b == y.b && x.c == y.c && x.d < y.d)
  }

  ghost predicate Drops(rank: nat -> Rank, i: nat) {
    Below(rank(i + 1), rank(i))
  }

  lemma {:induction false} NoEndlessDescent(rank: nat -> Rank, i: nat)
    requires forall j: nat {:trigger Drops(rank, j)} :: Drops(rank, j)
    ensures false
    decreases rank(i).a, rank(i).b, rank(i).c, rank(i).d
  {
    assert Drops(rank, i);
    NoEndlessDescent(rank, i + 1);
  }
}

/** The commands a .jobs file can hold, arguments already read. */
module Commands {
  import opened Seating

  datatype Command =
    | Create(id: nat, rows: nat, cols: nat)
    | Reserve(id: nat, seats: seq<Seat>)
    | Show(id: nat)
    | ListEvents
    | Wait(delay: nat, thread: nat)   // thread 0: the thread that reads the command waits itself
    | BadWait                         // WAIT with malformed arguments
    | Barrier
    | Help
    | Empty                           // blank line or comment
    | Invalid                         // unknown word or malformed arguments
}
