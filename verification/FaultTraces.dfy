/** Whole traces of faulting accesses through the translation cache: the cache may hold stale entries, the hardware sets
    A and D without a fence, and the handlers repair entries and fence. */
module FaultTraces {
  import opened Words
  import opened Sv39
  import opened Pool
  import opened Cells
  import opened PoolOps
  import opened Tlb
  import FixRetry

  /** One attempt at an access: what the hart caches or evicts before it, and the translation it then uses. */
  datatype Attempt = Attempt(va: Word, kind: FixRetry.Kind, quiet: seq<Event>, view: Option<Mapping>)

  ghost predicate CanAttempt(s: State, a: Attempt)
    requires Ok(s)
  {
    && Quiet(a.quiet) && Runs(s, a.quiet) && Ok(EndOf(s, a.quiet)) && CanSee(EndOf(s, a.quiet), a.va, a.view)
  }

  lemma QuietState(s: State, a: Attempt)
    requires Invariant(s) && CanAttempt(s, a)
    ensures var u := EndOf(s, a.quiet); Invariant(u) && u.history == s.history && u.fences == s.fences
  {
    RunKeeps(s, a.quiet);
    QuietRun(s, a.quiet);
  }

  lemma AccessIsPossible(s: State, va: Word, k: FixRetry.Kind, svadu: bool)
    requires Invariant(s) && FixRetry.AccessOk(Current(s), va, k, svadu)
    ensures Possible(s, Edit(FixRetry.AccessAt(Current(s), va, k, svadu)))
  {
    var p := Current(s);
    FixRetry.AccessKeeps(StopEntry(p, va), StopLevel(p, va), k, k, svadu);
    RepointKeepsPaths(p, va, FixRetry.AfterAccess(StopEntry(p, va), k));
  }

  /** The suite's handler fences the address, the kernel's resolver everything. */
  function FenceOf(f: FixRetry.Fixer, va: Word): Event { if f.KernelResolver? then SfenceAll else SfenceVa(va) }

  /** The state after a granted attempt: the hardware may have set A and D in the tables, with no fence. */
  ghost function Accessed(u: State, a: Attempt, svadu: bool): State
    requires Invariant(u)
  {
    if FixRetry.AccessOk(Current(u), a.va, a.kind, svadu) then
      AccessIsPossible(u, a.va, a.kind, svadu);
      After(u, Edit(FixRetry.AccessAt(Current(u), a.va, a.kind, svadu)))
    else u
  }

  /** The state after a fault: the handler's repair and its fence. */
  ghost function Handled(u: State, a: Attempt, f: FixRetry.Fixer): State
    requires Invariant(u)
  {
    RepairIsPossible(u, a.va, f, a.kind);
    After(After(u, Edit(FixRetry.FixAt(Current(u), a.va, f, a.kind))), FenceOf(f, a.va))
  }

  ghost function AfterAttempt(s: State, a: Attempt, f: FixRetry.Fixer, svadu: bool): State
    requires Invariant(s) && CanAttempt(s, a)
  {
    QuietState(s, a);
    var u := EndOf(s, a.quiet);
    if FixRetry.Grants(a.view, a.kind, svadu) then Accessed(u, a, svadu) else Handled(u, a, f)
  }

  /** All the cache may hold for x grants what the tables grant. */
  ghost predicate Coherent(s: State, x: Word, svadu: bool)
    requires Ok(s)
  {
    forall i: nat | SinceFence(s, x, i) :: FixRetry.SameGrants(View(s.history[i], x), View(Current(s), x), svadu)
  }

  /** A 4 KB page that the handler serves. */
  ghost predicate ServedPage(s: State, x: Word, f: FixRetry.Fixer)
    requires Ok(s)
  {
    FixRetry.Servable(Current(s), x, f) && StopLevel(Current(s), x) == 0
  }

  ghost function NeedOf(s: State, x: Word, svadu: bool): nat
    requires Ok(s)
  {
    FixRetry.NeedAt(Current(s), x, svadu)
  }

  /** From a coherent page an attempt faults exactly when the tables refuse it. */
  lemma FaultIsReal(s: State, a: Attempt, svadu: bool)
    requires Invariant(s) && Canonical(a.va) && CanAttempt(s, a) && Coherent(s, a.va, svadu)
    ensures FixRetry.Grants(a.view, a.kind, svadu) <==> FixRetry.AccessOk(Current(s), a.va, a.kind, svadu)
  {
    QuietState(s, a);
    var i := AccessIsRecent(EndOf(s, a.quiet), a.va, a.view);
    assert SinceFence(s, a.va, i);
    FixRetry.AccessIsHardware(Current(s), a.va, a.kind, svadu);
  }

  /** An unfenced edit that grants x what it was granted keeps x coherent. */
  lemma EditCoherent(s: State, q: Pool, x: Word, svadu: bool)
    requires Invariant(s) && Possible(s, Edit(q)) && Coherent(s, x, svadu)
    requires FixRetry.SameGrants(View(q, x), View(Current(s), x), svadu)
    ensures Invariant(After(s, Edit(q))) && Coherent(After(s, Edit(q)), x, svadu) && Current(After(s, Edit(q))) == q
  {
    var t := After(s, Edit(q));
    EventKeeps(s, Edit(q));
    forall i: nat | SinceFence(t, x, i) ensures FixRetry.SameGrants(View(t.history[i], x), View(q, x), svadu) {
      if i < |s.history| { assert SinceFence(s, x, i); }
    }
  }

  /** A fence keeps a coherent page coherent, and makes the page it names coherent. */
  lemma FenceCoherent(s: State, f: FixRetry.Fixer, va: Word, x: Word, svadu: bool)
    requires Invariant(s) && (Coherent(s, x, svadu) || SameSlot(x, va, 0))
    ensures var t := After(s, FenceOf(f, va)); Invariant(t) && Coherent(t, x, svadu) && Current(t) == Current(s)
  {
    EventKeeps(s, FenceOf(f, va));
    var t := After(s, FenceOf(f, va));
    forall i: nat | SinceFence(t, x, i) ensures FixRetry.SameGrants(View(t.history[i], x), View(Current(t), x), svadu) {
      if f.KernelResolver? {
        assert i == 0;
      } else if SameSlot(x, va, 0) {
        assert t.fences[|s.fences|].at <= i;
      } else {
        assert forall k | 0 <= k < |s.fences| :: t.fences[k] == s.fences[k];
        assert SinceFence(s, x, i);
      }
    }
  }

  lemma AccessedKeeps(u: State, a: Attempt, f: FixRetry.Fixer, svadu: bool, x: Word)
    requires Invariant(u) && Coherent(u, x, svadu) && ServedPage(u, x, f)
    ensures var t := Accessed(u, a, svadu);
      Invariant(t) && Coherent(t, x, svadu) && ServedPage(t, x, f) && NeedOf(t, x, svadu) <= NeedOf(u, x, svadu)
  {
    if FixRetry.AccessOk(Current(u), a.va, a.kind, svadu) {
      var q := FixRetry.AccessAt(Current(u), a.va, a.kind, svadu);
      AccessIsPossible(u, a.va, a.kind, svadu);
      FixRetry.SameGrantsAfterAccess(Current(u), a.va, a.kind, svadu, x);
      EditCoherent(u, q, x, svadu);
      FixRetry.AccessAtKeeps(Current(u), a.va, a.kind, svadu, x, f);
    }
  }

  lemma HandledKeeps(u: State, a: Attempt, f: FixRetry.Fixer, svadu: bool, x: Word)
    requires Invariant(u) && Coherent(u, x, svadu) && ServedPage(u, x, f) && ServedPage(u, a.va, f)
    requires !FixRetry.AccessOk(Current(u), a.va, a.kind, svadu)
    ensures var t := Handled(u, a, f);
      && Invariant(t) && Coherent(t, x, svadu) && ServedPage(t, x, f)
      && NeedOf(t, x, svadu) + (if SameSlot(x, a.va, 0) then 1 else 0) <= NeedOf(u, x, svadu)
  {
    var p := Current(u);
    var q := FixRetry.FixAt(p, a.va, f, a.kind);
    RepairIsPossible(u, a.va, f, a.kind);
    EventKeeps(u, Edit(q));
    FixRetry.FixAtKeeps(p, a.va, a.kind, svadu, x, f);
    if !SameSlot(x, a.va, 0) {
      FixRetry.RetrySucceeds(p, a.va, f, a.kind, svadu, x);
      EditCoherent(u, q, x, svadu);
    }
    FenceCoherent(After(u, Edit(q)), f, a.va, x, svadu);
  }

  lemma AttemptKeeps(s: State, a: Attempt, f: FixRetry.Fixer, svadu: bool, x: Word)
    requires Invariant(s) && CanAttempt(s, a) && Coherent(s, a.va, svadu) && ServedPage(s, a.va, f)
    requires Coherent(s, x, svadu) && ServedPage(s, x, f)
    ensures var t := AfterAttempt(s, a, f, svadu);
      && Invariant(t) && Coherent(t, x, svadu) && ServedPage(t, x, f)
      && NeedOf(t, x, svadu) + FaultOn(a, svadu, x) <= NeedOf(s, x, svadu)
  {
    QuietState(s, a);
    var u := EndOf(s, a.quiet);
    assert Coherent(u, x, svadu) by {
      forall i: nat | SinceFence(u, x, i)
        ensures FixRetry.SameGrants(View(u.history[i], x), View(Current(u), x), svadu)
      {
        assert SinceFence(s, x, i);
      }
    }
    FaultIsReal(s, a, svadu);
    if FixRetry.Grants(a.view, a.kind, svadu) {
      AccessedKeeps(u, a, f, svadu, x);
    } else {
      HandledKeeps(u, a, f, svadu, x);
    }
  }

  function FaultOn(a: Attempt, svadu: bool, x: Word): nat {
    if !FixRetry.Grants(a.view, a.kind, svadu) && SameSlot(x, a.va, 0) then 1 else 0
  }

  /** All attempts are on coherent 4 KB pages that the handler serves. */
  ghost predicate AllServed(s: State, attempts: seq<Attempt>, f: FixRetry.Fixer, svadu: bool) {
    Invariant(s) && forall a | a in attempts :: Coherent(s, a.va, svadu) && ServedPage(s, a.va, f)
  }

  lemma TraceContinues(s: State, attempts: seq<Attempt>, f: FixRetry.Fixer, svadu: bool)
    requires attempts != [] && AllServed(s, attempts, f, svadu) && CanAttempt(s, attempts[0])
    ensures AllServed(AfterAttempt(s, attempts[0], f, svadu), attempts[1..], f, svadu)
  {
    AttemptKeeps(s, attempts[0], f, svadu, attempts[0].va);
    forall a | a in attempts[1..]
      ensures Coherent(AfterAttempt(s, attempts[0], f, svadu), a.va, svadu)
      ensures ServedPage(AfterAttempt(s, attempts[0], f, svadu), a.va, f)
    {
      AttemptKeeps(s, attempts[0], f, svadu, a.va);
    }
  }

  /** Each attempt uses a translation the cache or a walk may give it in the state it meets. */
  ghost predicate Trace(s: State, attempts: seq<Attempt>, f: FixRetry.Fixer, svadu: bool)
    requires AllServed(s, attempts, f, svadu)
    decreases |attempts|
  {
    if attempts == [] then true
    else if !CanAttempt(s, attempts[0]) then false
    else
      TraceContinues(s, attempts, f, svadu);
      Trace(AfterAttempt(s, attempts[0], f, svadu), attempts[1..], f, svadu)
  }

  /** The faults of the trace on the page of x. */
  function FaultsOn(attempts: seq<Attempt>, svadu: bool, x: Word): nat {
    if attempts == [] then 0 else FaultOn(attempts[0], svadu, x) + FaultsOn(attempts[1..], svadu, x)
  }

  /** Whatever the cache does along the trace, a page faults at most as often as it has kinds of access missing: at most
      three times. */
  lemma {:induction false} AtMostThreeFaultsPerPage(
    s: State, attempts: seq<Attempt>, f: FixRetry.Fixer, svadu: bool, x: Word)
    requires AllServed(s, attempts, f, svadu) && Trace(s, attempts, f, svadu)
    requires Coherent(s, x, svadu) && ServedPage(s, x, f)
    ensures FaultsOn(attempts, svadu, x) <= NeedOf(s, x, svadu) <= 3
    decreases |attempts|
  {
    if attempts != [] {
      TraceContinues(s, attempts, f, svadu);
      AttemptKeeps(s, attempts[0], f, svadu, x);
      AtMostThreeFaultsPerPage(AfterAttempt(s, attempts[0], f, svadu), attempts[1..], f, svadu, x);
    }
  }

  /** Right after a full fence every page is coherent. */
  lemma FencedIsCoherent(s: State, x: Word, svadu: bool)
    requires Ok(s) && |s.history| == 1
    ensures Coherent(s, x, svadu)
  {
    forall i: nat | SinceFence(s, x, i) ensures FixRetry.SameGrants(View(s.history[i], x), View(Current(s), x), svadu) {
      assert i == 0;
    }
  }

  /** An attempt that repeats one that faulted goes through, whatever is cached in between: no access faults twice. */
  lemma NoAccessFaultsTwice(s: State, a: Attempt, b: Attempt, f: FixRetry.Fixer, svadu: bool)
    requires Invariant(s) && CanAttempt(s, a) && Coherent(s, a.va, svadu) && ServedPage(s, a.va, f)
    requires !FixRetry.Grants(a.view, a.kind, svadu) && b.va == a.va && b.kind == a.kind
    requires Ok(AfterAttempt(s, a, f, svadu)) && CanAttempt(AfterAttempt(s, a, f, svadu), b)
    ensures FixRetry.Grants(b.view, b.kind, svadu)
  {
    var t := AfterAttempt(s, a, f, svadu);
    AttemptKeeps(s, a, f, svadu, a.va);
    FaultIsReal(t, b, svadu);
    HandledServes(s, a, f, svadu);
  }

  lemma HandledTables(u: State, a: Attempt, f: FixRetry.Fixer)
    requires Invariant(u)
    ensures Ok(Handled(u, a, f)) && Current(Handled(u, a, f)) == FixRetry.FixAt(Current(u), a.va, f, a.kind)
  {
    var q := FixRetry.FixAt(Current(u), a.va, f, a.kind);
    RepairIsPossible(u, a.va, f, a.kind);
    EventKeeps(u, Edit(q));
    EventKeeps(After(u, Edit(q)), FenceOf(f, a.va));
  }

  lemma HandledServes(s: State, a: Attempt, f: FixRetry.Fixer, svadu: bool)
    requires Invariant(s) && CanAttempt(s, a) && ServedPage(s, a.va, f) && !FixRetry.Grants(a.view, a.kind, svadu)
    ensures var t := AfterAttempt(s, a, f, svadu); Ok(t) && FixRetry.AccessOk(Current(t), a.va, a.kind, svadu)
  {
    QuietState(s, a);
    HandledTables(EndOf(s, a.quiet), a, f);
    FixRetry.RetrySucceeds(Current(s), a.va, f, a.kind, svadu, a.va);
  }
}
