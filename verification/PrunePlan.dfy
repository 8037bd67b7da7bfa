/** Which outputs a prune selects: the explicit command's plan, and what an automatic pass makes of it. */
module PrunePlan {
  import opened Bytes
  import opened Seqs

  const I64_MAX := 0x7FFF_FFFF_FFFF_FFFF

  datatype Candidate = Candidate(id: nat, bytes: int, finalizedAt: int)

  /** The store lists candidates oldest first. */
  predicate OldestFirst(cs: seq<Candidate>) {
    forall i, j | 0 <= i < j < |cs| :: cs[i].finalizedAt <= cs[j].finalizedAt
  }

  predicate Accounted(cs: seq<Candidate>) {
    forall i | 0 <= i < |cs| :: cs[i].bytes >= 0
  }

  /** Bytes freed by the removals among the first `k` that `done` says succeeded. */
  function Freed(cs: seq<Candidate>, done: nat -> bool, k: nat): int
    requires k <= |cs|
  {
    if k == 0 then 0 else Freed(cs, done, k - 1) + (if done(k - 1) then cs[k - 1].bytes else 0)
  }

  function Always(): nat -> bool { (i: nat) => true }

  /** Removing the first `k` leaves no over-age output and brings the rest within the limit, or is all there is. */
  ghost predicate Enough(cs: seq<Candidate>, done: nat -> bool, retained: int, limit: int, cutoff: int, k: nat)
    requires k <= |cs|
  {
    && (forall i | k <= i < |cs| :: cs[i].finalizedAt >= cutoff)
    && (k == |cs| || retained - Freed(cs, done, k) <= limit)
  }

  /** No shorter prefix is enough. */
  ghost predicate Shortest(cs: seq<Candidate>, done: nat -> bool, retained: int, limit: int, cutoff: int, k: nat)
    requires k <= |cs|
  {
    Enough(cs, done, retained, limit, cutoff, k) && forall j | 0 <= j < k :: !Enough(cs, done, retained, limit, cutoff, j)
  }

  lemma ShortestIsUnique(cs: seq<Candidate>, done: nat -> bool, retained: int, limit: int, cutoff: int, a: nat, b: nat)
    requires a <= |cs| && b <= |cs|
    requires Shortest(cs, done, retained, limit, cutoff, a) && Shortest(cs, done, retained, limit, cutoff, b)
    ensures a == b
  {
  }

  lemma {:induction false} FreedGrows(cs: seq<Candidate>, done: nat -> bool, j: nat, k: nat)
    requires Accounted(cs) && j <= k <= |cs|
    ensures 0 <= Freed(cs, done, j) <= Freed(cs, done, k)
    decreases k
  {
    if j < k {
      FreedGrows(cs, done, j, k - 1);
    } else if k > 0 {
      FreedGrows(cs, done, k - 1, k - 1);
    }
  }

  datatype Selection = Selection(chosen: seq<Candidate>, bytes: int)

  function Max(a: int, b: int): int { if a >= b then a else b }

  /**
    The selection loop of the explicit command. It refuses unsound accounting; otherwise it
    selects exactly the shortest sufficient prefix.
  */
  method PlanExplicit(cs: seq<Candidate>, retained: int, limit: int, cutoff: int) returns (r: Option<Selection>)
    requires OldestFirst(cs)
    ensures r.Some? ==> retained >= 0 && limit >= 0 && Accounted(cs) && Planned(cs, retained, limit, cutoff, r.value)
    ensures r.None? && retained >= 0 && limit >= 0 && Accounted(cs) ==>
              exists k | 0 <= k <= |cs| :: Shortest(cs, Always(), retained, limit, cutoff, k) && Freed(cs, Always(), k) > 0x7FFF_FFFF_FFFF_FFFF
  {
    if retained < 0 || limit < 0 { return None; }
    var projected, bytes := retained, 0;
    var chosen: seq<Candidate> := [];
    ghost var k := 0;
    for i := 0 to |cs|
      invariant k <= i && chosen == cs[..k] && bytes == Freed(cs, Always(), k) <= I64_MAX
      invariant forall j | 0 <= j < i :: cs[j].bytes >= 0
      invariant projected == Max(0, retained - bytes)
      invariant k < i ==> cs[k].finalizedAt >= cutoff && projected <= limit
      invariant forall j | 0 <= j < k :: cs[j].finalizedAt < cutoff || retained - Freed(cs, Always(), j) > limit
    {
      var c := cs[i];
      if c.bytes < 0 {
        assert !Accounted(cs);
        return None;
      }
      if c.finalizedAt >= cutoff && projected <= limit { continue; }
      assert k == i;
      if bytes + c.bytes > I64_MAX {
        assert forall j | 0 <= j <= i :: !Enough(cs, Always(), retained, limit, cutoff, j);
        k := NextShortest(cs, Always(), retained, limit, cutoff, i + 1);
        if Accounted(cs) { FreedGrows(cs, Always(), i + 1, k); }
        return None;
      }
      bytes := bytes + c.bytes;
      projected := Max(projected - c.bytes, 0);
      chosen := chosen + [c];
      k := k + 1;
    }
    PlanIsShortest(cs, Always(), retained, limit, cutoff, k);
    return Some(Selection(chosen, bytes));
  }

  /** The selection is the shortest sufficient prefix, with the bytes it frees. */
  ghost predicate Planned(cs: seq<Candidate>, retained: int, limit: int, cutoff: int, s: Selection) {
    && |s.chosen| <= |cs| && s.chosen == cs[..|s.chosen|]
    && Shortest(cs, Always(), retained, limit, cutoff, |s.chosen|)
    && s.bytes == Freed(cs, Always(), |s.chosen|) <= 0x7FFF_FFFF_FFFF_FFFF
  }

  /** There always is a shortest sufficient prefix. */
  lemma NextShortest(cs: seq<Candidate>, done: nat -> bool, retained: int, limit: int, cutoff: int, from: nat) returns (k: nat)
    requires from <= |cs| && forall j | 0 <= j < from :: !Enough(cs, done, retained, limit, cutoff, j)
    ensures from <= k <= |cs| && Shortest(cs, done, retained, limit, cutoff, k)
    decreases |cs| - from
  {
    if Enough(cs, done, retained, limit, cutoff, from) {
      k := from;
    } else {
      k := NextShortest(cs, done, retained, limit, cutoff, from + 1);
    }
  }

  lemma PlanIsShortest(cs: seq<Candidate>, done: nat -> bool, retained: int, limit: int, cutoff: int, k: nat)
    requires OldestFirst(cs) && k <= |cs|
    requires k < |cs| ==> cs[k].finalizedAt >= cutoff && retained - Freed(cs, done, k) <= limit
    requires forall j | 0 <= j < k :: cs[j].finalizedAt < cutoff || retained - Freed(cs, done, j) > limit
    ensures Shortest(cs, done, retained, limit, cutoff, k)
  {
    forall j | 0 <= j < k ensures !Enough(cs, done, retained, limit, cutoff, j) {
      if cs[j].finalizedAt < cutoff { assert !(cs[j].finalizedAt >= cutoff); }
    }
  }

  function Chosen(cs: seq<Candidate>, done: nat -> bool, k: nat): seq<Candidate>
    requires k <= |cs|
  {
    if k == 0 then [] else Chosen(cs, done, k - 1) + (if done(k - 1) then [cs[k - 1]] else [])
  }

  /**
    The loop of an automatic pass. `ready(i)` says whether the pass may take an action for
    candidate `i`, `done(i)` whether removing it succeeds. It attempts the candidates in order,
    up to the shortest prefix that is enough given what was really freed, or until it has to stop.
  */
  method PruneLimits(cs: seq<Candidate>, retained: int, limit: int, cutoff: int, ready: nat -> bool, done: nat -> bool)
      returns (removed: seq<Candidate>, tried: nat, stopped: bool)
    requires OldestFirst(cs)
    ensures tried <= |cs| && removed == Chosen(cs, done, tried) && forall j | 0 <= j < tried :: ready(j)
    ensures !stopped ==> Shortest(cs, done, retained, limit, cutoff, tried)
    ensures stopped ==> tried < |cs| && !ready(tried) && forall j | 0 <= j <= tried :: !Enough(cs, done, retained, limit, cutoff, j)
  {
    removed, tried, stopped := [], 0, false;
    var left := retained;
    for i := 0 to |cs|
      invariant (forall j | 0 <= j < tried :: ready(j)) && tried <= i && removed == Chosen(cs, done, tried) && left == retained - Freed(cs, done, tried)
      invariant tried < i ==> cs[tried].finalizedAt >= cutoff && left <= limit
      invariant forall j | 0 <= j < tried :: cs[j].finalizedAt < cutoff || retained - Freed(cs, done, j) > limit
    {
      var c := cs[i];
      if c.finalizedAt >= cutoff && left <= limit { continue; }
      assert tried == i;
      if !ready(i) {
        stopped := true;
        assert forall j | 0 <= j <= tried :: !Enough(cs, done, retained, limit, cutoff, j);
        return;
      }
      if done(i) {
        left := left - c.bytes;
        removed := removed + [c];
      }
      tried := tried + 1;
    }
    PlanIsShortest(cs, done, retained, limit, cutoff, tried);
  }

  // ---- The automatic pass against the explicit plan ----

  /** What the automatic pass promises about the number of candidates it tries. */
  ghost predicate Tried(cs: seq<Candidate>, done: nat -> bool, retained: int, limit: int, cutoff: int, tried: nat, stopped: bool) {
    && tried <= |cs|
    && (!stopped ==> Shortest(cs, done, retained, limit, cutoff, tried))
    && (stopped ==> forall j | 0 <= j <= tried :: !Enough(cs, done, retained, limit, cutoff, j))
  }

  lemma {:induction false} AllDone(cs: seq<Candidate>, done: nat -> bool, k: nat)
    requires k <= |cs| && forall i | 0 <= i < k :: done(i)
    ensures Freed(cs, done, k) == Freed(cs, Always(), k) && Chosen(cs, done, k) == cs[..k]
    decreases k
  {
    if k > 0 {
      AllDone(cs, done, k - 1);
      assert cs[..k] == cs[..k - 1] + [cs[k - 1]];
    }
  }

  /** A pass in which every removal succeeds removes a prefix of the explicit plan, and all of it unless it had to stop. */
  lemma AutomaticFollowsPlan(cs: seq<Candidate>, done: nat -> bool, retained: int, limit: int, cutoff: int, k: nat, tried: nat, stopped: bool)
    requires k <= |cs| && Shortest(cs, Always(), retained, limit, cutoff, k)
    requires Tried(cs, done, retained, limit, cutoff, tried, stopped) && forall i | 0 <= i < tried :: done(i)
    ensures Chosen(cs, done, tried) == cs[..tried] && tried <= k && (!stopped ==> tried == k)
  {
    AllDone(cs, done, tried);
    forall j | 0 <= j <= tried
      ensures Enough(cs, done, retained, limit, cutoff, j) <==> Enough(cs, Always(), retained, limit, cutoff, j)
    {
      AllDone(cs, done, j);
    }
  }

  predicate DistinctIds(cs: seq<Candidate>) {
    forall i, j | 0 <= i < j < |cs| :: cs[i].id != cs[j].id
  }

  /** No removal succeeds after one that failed. */
  predicate FailuresLast(done: nat -> bool, tried: nat) {
    forall i, j | 0 <= i < j < tried && done(j) :: done(i)
  }

  lemma {:induction false} ChosenAfterFailures(cs: seq<Candidate>, done: nat -> bool, m: nat, k: nat)
    requires m <= k <= |cs| && forall i | m <= i < k :: !done(i)
    ensures Chosen(cs, done, k) == Chosen(cs, done, m) && Freed(cs, done, k) == Freed(cs, done, m)
    decreases k
  {
    if m < k {
      ChosenAfterFailures(cs, done, m, k - 1);
      EmptyRight(Chosen(cs, done, k - 1));
    }
  }

  lemma {:induction false} ChosenGrows(cs: seq<Candidate>, done: nat -> bool, j: nat, k: nat)
    requires j <= k <= |cs|
    ensures Chosen(cs, done, j) <= Chosen(cs, done, k)
    decreases k
  {
    if j < k { ChosenGrows(cs, done, j, k - 1); }
  }

  /**
    When a removal fails its bytes are not counted as freed, so the pass may go on past the plan:
    what it removes is a prefix of the plan exactly when no removal succeeds after a failed one.
  */
  lemma PrefixOfPlanExactly(cs: seq<Candidate>, done: nat -> bool, retained: int, limit: int, cutoff: int, k: nat, tried: nat, stopped: bool)
    requires DistinctIds(cs) && k <= |cs| && Shortest(cs, Always(), retained, limit, cutoff, k)
    requires Tried(cs, done, retained, limit, cutoff, tried, stopped)
    ensures Chosen(cs, done, tried) <= cs[..k] <==> FailuresLast(done, tried)
  {
    var m := FirstFailure(done, tried);
    if FailuresLast(done, tried) {
      AllDone(cs, done, m);
      ChosenAfterFailures(cs, done, m, tried);
      SuccessesWithinPlan(cs, done, retained, limit, cutoff, k, tried, stopped, m);
      assert cs[..m] <= cs[..k];
    } else {
      var i, j :| 0 <= i < j < tried && done(j) && !done(i);
      LateSuccessLeavesPrefix(cs, done, tried, m, j, k);
    }
  }

  lemma LateSuccessLeavesPrefix(cs: seq<Candidate>, done: nat -> bool, tried: nat, m: nat, j: nat, k: nat)
    requires DistinctIds(cs) && k <= |cs| && m < j < tried <= |cs| && done(j) && !done(m) && forall i | 0 <= i < m :: done(i)
    ensures !(Chosen(cs, done, tried) <= cs[..k])
  {
    var p := FirstSuccess(done, m, j);
    AllDone(cs, done, m);
    ChosenAfterFailures(cs, done, m, p);
    ChosenGrows(cs, done, p + 1, tried);
    var removed := Chosen(cs, done, tried);
    assert Chosen(cs, done, p + 1) == cs[..m] + [cs[p]];
    assert removed[m] == cs[p] && cs[p].id != cs[m].id;
  }

  lemma FirstFailure(done: nat -> bool, n: nat) returns (m: nat)
    ensures m <= n && (forall i | 0 <= i < m :: done(i)) && (m < n ==> !done(m))
  {
    m := 0;
    while m < n && done(m)
      invariant m <= n && (forall i | 0 <= i < m :: done(i))
      decreases n - m
    {
      m := m + 1;
    }
  }

  lemma FirstSuccess(done: nat -> bool, from: nat, upto: nat) returns (p: nat)
    requires from <= upto && done(upto)
    ensures from <= p <= upto && done(p) && forall i | from <= i < p :: !done(i)
  {
    p := from;
    while !done(p)
      invariant from <= p <= upto && (forall i | from <= i < p :: !done(i))
      decreases upto - p
    {
      p := p + 1;
    }
  }

  lemma SuccessesWithinPlan(cs: seq<Candidate>, done: nat -> bool, retained: int, limit: int, cutoff: int,
                            k: nat, tried: nat, stopped: bool, m: nat)
    requires k <= |cs| && Shortest(cs, Always(), retained, limit, cutoff, k)
    requires Tried(cs, done, retained, limit, cutoff, tried, stopped)
    requires m <= tried && forall i | 0 <= i < m :: done(i)
    ensures m <= k
  {
    if k < m {
      AllDone(cs, done, k);
      assert Enough(cs, done, retained, limit, cutoff, k);
    }
  }

  /** The failing case is real: one failed removal makes a pass remove an output the plan keeps. */
  lemma FailedRemovalLeavesPlan()
    ensures var cs := [Candidate(0, 10, 5), Candidate(1, 10, 6)];
            var done := (i: nat) => i == 1;
            && Shortest(cs, Always(), 20, 10, 0, 1)
            && Tried(cs, done, 20, 10, 0, 2, false)
            && Chosen(cs, done, 2) == [cs[1]] && !(Chosen(cs, done, 2) <= cs[..1])
  {
    var cs := [Candidate(0, 10, 5), Candidate(1, 10, 6)];
    var done := (i: nat) => i == 1;
    assert Freed(cs, Always(), 0) == 0 && Freed(cs, Always(), 1) == 10;
    assert Freed(cs, done, 0) == 0 && Freed(cs, done, 1) == 0;
    assert Chosen(cs, done, 0) == [] && Chosen(cs, done, 1) == [];
  }
}
