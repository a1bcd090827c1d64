/** Executions of several harts under RVWMO (chapter 14 of the Unprivileged ISA, version 20191213), stated
    axiomatically: a global memory order over the memory operations of all program traces, the preserved program
    order of same-address stores (rule 1) and fences (rule 4), and the load value axiom with store forwarding. An
    AMO is one operation that loads and stores. The remaining preserved-program-order rules only forbid more
    executions, so what is proved here holds with them too. */
module Rvwmo {
  import opened Words

  type Loc = nat

  datatype Op =
    | Load(a: Loc, v: Word)
    | Store(a: Loc, v: Word)
    | Amo(a: Loc, was: Word, next: Word)
    | Fence(pr: bool, pw: bool, sr: bool, sw: bool)

  predicate Reads(op: Op) { op.Load? || op.Amo? }
  predicate Writes(op: Op) { op.Store? || op.Amo? }
  predicate IsMem(op: Op) { !op.Fence? }

  function ReadValue(op: Op): Word
    requires Reads(op)
  {
    if op.Load? then op.v else op.was
  }

  function WriteValue(op: Op): Word
    requires Writes(op)
  {
    if op.Store? then op.v else op.next
  }

  /** What an operation makes of the value v at address a. */
  function Written(op: Op, a: Loc, v: Word): Word { if Writes(op) && op.a == a then WriteValue(op) else v }

  type Trace = seq<Op>

  /** Operation i of hart's program order. */
  datatype Event = Event(hart: nat, i: nat)

  datatype Execution = Execution(init: Loc -> Word, prog: seq<Trace>, gmo: seq<Event>)

  predicate IsEvent(x: Execution, e: Event) {
    e.hart < |x.prog| && e.i < |x.prog[e.hart]| && IsMem(x.prog[e.hart][e.i])
  }

  function OpOf(x: Execution, e: Event): Op
    requires IsEvent(x, e)
  {
    x.prog[e.hart][e.i]
  }

  /** A fence at k orders i before j. */
  predicate Fenced(t: Trace, i: nat, k: nat, j: nat)
    requires i < k < j < |t| && t[k].Fence?
  {
    && ((Reads(t[i]) && t[k].pr) || (Writes(t[i]) && t[k].pw))
    && ((Reads(t[j]) && t[k].sr) || (Writes(t[j]) && t[k].sw))
  }

  /** Preserved program order, rules 1 and 4. */
  ghost predicate Preserved(t: Trace, i: nat, j: nat)
    requires i < j < |t|
  {
    && IsMem(t[i]) && IsMem(t[j])
    && ((t[i].a == t[j].a && Writes(t[j])) || exists k: nat | i < k < j && t[k].Fence? :: Fenced(t, i, k, j))
  }

  predicate Apart(x: Execution, m: nat, n: nat)
    requires m < |x.gmo| && n < |x.gmo|
  {
    x.gmo[m] != x.gmo[n]
  }

  /** The global memory order lists every memory operation exactly once. */
  ghost predicate IsOrder(x: Execution) {
    && (forall n | 0 <= n < |x.gmo| :: IsEvent(x, x.gmo[n]))
    && (forall m: nat, n: nat {:trigger Apart(x, m, n)} | m < n < |x.gmo| :: Apart(x, m, n))
    && (forall e {:trigger e in x.gmo} | IsEvent(x, e) :: e in x.gmo)
  }

  /** Where an event stands in the global memory order. */
  ghost function Position(x: Execution, e: Event): (n: nat)
    requires IsOrder(x) && IsEvent(x, e)
    ensures n < |x.gmo| && x.gmo[n] == e
  {
    assert e in x.gmo;
    var n: nat :| n < |x.gmo| && x.gmo[n] == e;
    n
  }

  /** No event is performed twice. */
  lemma OnePlace(x: Execution, m: nat, n: nat)
    requires IsOrder(x) && m < |x.gmo| && n < |x.gmo| && x.gmo[m] == x.gmo[n]
    ensures m == n
  {
    assert m < n ==> Apart(x, m, n);
    assert n < m ==> Apart(x, n, m);
  }

  function At(x: Execution, n: nat): Op
    requires n < |x.gmo| && IsEvent(x, x.gmo[n])
  {
    OpOf(x, x.gmo[n])
  }

  /** A store the load at position m may return: before it in the global memory order, or before it in its own
      hart's program order (forwarding). */
  ghost predicate Visible(x: Execution, n: nat, m: nat)
    requires IsOrder(x) && n < |x.gmo| && m < |x.gmo|
  {
    && n != m && Writes(At(x, n)) && At(x, n).a == At(x, m).a
    && (n < m || (x.gmo[n].hart == x.gmo[m].hart && x.gmo[n].i < x.gmo[m].i))
  }

  ghost predicate ReturnsFrom(x: Execution, n: nat, m: nat)
    requires IsOrder(x) && n < |x.gmo| && m < |x.gmo|
  {
    Visible(x, n, m) && forall k: nat | k < |x.gmo| && Visible(x, k, m) :: k <= n
  }

  /** The load value axiom: the latest visible store, or the initial value when there is none. */
  ghost predicate LoadValue(x: Execution, m: nat)
    requires IsOrder(x) && m < |x.gmo| && Reads(At(x, m))
  {
    if exists n: nat :: n < |x.gmo| && Visible(x, n, m)
    then exists n: nat :: n < |x.gmo| && ReturnsFrom(x, n, m) && ReadValue(At(x, m)) == WriteValue(At(x, n))
    else ReadValue(At(x, m)) == x.init(At(x, m).a)
  }

  ghost predicate PreservesOrder(x: Execution)
    requires IsOrder(x)
  {
    forall m: nat, n: nat {:trigger Preserved(x.prog[x.gmo[m].hart], x.gmo[m].i, x.gmo[n].i)} |
      && m < |x.gmo| && n < |x.gmo| && x.gmo[m].hart == x.gmo[n].hart && x.gmo[m].i < x.gmo[n].i
      && Preserved(x.prog[x.gmo[m].hart], x.gmo[m].i, x.gmo[n].i) :: m < n
  }

  ghost predicate Allowed(x: Execution) {
    && IsOrder(x)
    && PreservesOrder(x)
    && forall m: nat {:trigger LoadValue(x, m)} | m < |x.gmo| && Reads(At(x, m)) :: LoadValue(x, m)
  }

  // ---- Executions that stay allowed under every rule ----

  /** Memory operations i and j may perform in either order under all of preserved program order, not only the two
      rules above. Rules 1 to 3 and 12 concern operations on one address, or a store in between to the address of j;
      4 a fence; 5 to 8 acquire, release and paired LR/SC, of which these programs have none; 9 and 13 an address
      computed from a load, and all addresses here are fixed; 10 and 11 a store that depends on a load. An AMO's
      result counts as unused: a program that uses it is not described by this predicate. */
  ghost predicate Unordered(t: Trace, i: nat, j: nat)
    requires i < j < |t|
  {
    && IsMem(t[i]) && IsMem(t[j]) && t[i].a != t[j].a
    && (t[j].Load? || !t[i].Load?)
    && (forall k: nat | i < k < j && t[k].Fence? :: !Fenced(t, i, k, j))
    && (forall k: nat | i < k < j && Writes(t[k]) :: t[k].a != t[j].a)
  }

  /** Where the global memory order departs from a program, the operations are unordered by every rule. */
  ghost predicate ReordersUnordered(x: Execution)
    requires IsOrder(x)
  {
    forall m: nat, n: nat {:trigger Unordered(x.prog[x.gmo[m].hart], x.gmo[m].i, x.gmo[n].i)}
                          {:trigger Preserved(x.prog[x.gmo[m].hart], x.gmo[m].i, x.gmo[n].i)} |
      n < m < |x.gmo| && x.gmo[m].hart == x.gmo[n].hart && x.gmo[m].i < x.gmo[n].i ::
      Unordered(x.prog[x.gmo[m].hart], x.gmo[m].i, x.gmo[n].i)
  }

  /** Allowed by all thirteen rules and the load value axiom. */
  ghost predicate Genuine(x: Execution) {
    && IsOrder(x) && ReordersUnordered(x)
    && forall m: nat {:trigger LoadValue(x, m)} | m < |x.gmo| && Reads(At(x, m)) :: LoadValue(x, m)
  }

  lemma GenuineIsAllowed(x: Execution)
    requires Genuine(x)
    ensures Allowed(x)
  {
    forall m: nat, n: nat | m < |x.gmo| && n < |x.gmo| && x.gmo[m].hart == x.gmo[n].hart && x.gmo[m].i < x.gmo[n].i
        && Preserved(x.prog[x.gmo[m].hart], x.gmo[m].i, x.gmo[n].i)
      ensures m < n
    {
    }
  }

  /** Rule 11 for operation i of hart h, a load that decides a branch or an indirect call: the hart's later stores and
      AMOs perform after it. */
  ghost predicate Controls(x: Execution, h: nat, i: nat)
    requires IsOrder(x)
  {
    forall m: nat, n: nat {:trigger Apart(x, m, n)} |
      && m < |x.gmo| && n < |x.gmo| && x.gmo[m] == Event(h, i) && x.gmo[n].hart == h && i < x.gmo[n].i
      && Writes(At(x, n)) :: m < n
  }

  /** The executions given as counterexamples keep rule 11 for every load. */
  lemma GenuineControls(x: Execution, h: nat, i: nat)
    requires Genuine(x) && h < |x.prog| && i < |x.prog[h]| && x.prog[h][i].Load?
    ensures Controls(x, h, i)
  {
    forall m: nat, n: nat | m < |x.gmo| && n < |x.gmo| && x.gmo[m] == Event(h, i) && x.gmo[n].hart == h
        && i < x.gmo[n].i && Writes(At(x, n))
      ensures m < n
    {
      assert !Unordered(x.prog[x.gmo[m].hart], x.gmo[m].i, x.gmo[n].i);
    }
  }

  // ---- Restoring sequential consistency ----

  /** A choice of operations, by hart and place in its program. */
  type Choice = (nat, nat, Op) -> bool

  /** No fence is chosen, and the chosen operations of each hart appear in the global memory order in program
      order. */
  ghost predicate InProgramOrder(x: Execution, c: Choice)
    requires IsOrder(x)
  {
    && (forall h: nat, i: nat, op: Op | op.Fence? :: !c(h, i, op))
    && (forall m: nat, n: nat {:trigger Chosen(x, c, m), Chosen(x, c, n)} |
          && m < |x.gmo| && n < |x.gmo| && x.gmo[m].hart == x.gmo[n].hart && x.gmo[m].i < x.gmo[n].i
          && Chosen(x, c, m) && Chosen(x, c, n) :: m < n)
  }

  ghost predicate Chosen(x: Execution, c: Choice, n: nat)
    requires IsOrder(x) && n < |x.gmo|
  {
    c(x.gmo[n].hart, x.gmo[n].i, At(x, n))
  }

  /** Memory after the first k operations of the global memory order. */
  ghost function Memory(x: Execution, k: nat, a: Loc): Word
    requires IsOrder(x) && k <= |x.gmo|
  {
    if k == 0 then x.init(a)
    else if Writes(At(x, k - 1)) && At(x, k - 1).a == a then WriteValue(At(x, k - 1))
    else Memory(x, k - 1, a)
  }

  lemma {:induction false} MemoryIsLatest(x: Execution, k: nat, a: Loc, n: nat)
    requires IsOrder(x) && n < k <= |x.gmo|
    requires Writes(At(x, n)) && At(x, n).a == a
    requires forall i: nat | n < i < k && Writes(At(x, i)) :: At(x, i).a != a
    ensures Memory(x, k, a) == WriteValue(At(x, n))
    decreases k
  {
    if n < k - 1 { MemoryIsLatest(x, k - 1, a, n); }
  }

  lemma {:induction false} MemoryIsInitial(x: Execution, k: nat, a: Loc)
    requires IsOrder(x) && k <= |x.gmo|
    requires forall i: nat | i < k && Writes(At(x, i)) :: At(x, i).a != a
    ensures Memory(x, k, a) == x.init(a)
    decreases k
  {
    if k > 0 { MemoryIsInitial(x, k - 1, a); }
  }

  ghost predicate ChoosesStores(c: Choice, a: Loc) {
    forall h: nat, i: nat, op: Op | Writes(op) && op.a == a :: c(h, i, op)
  }

  /** The last store of a word before position k, if there is one. */
  lemma {:induction false} LastWrite(x: Execution, k: nat, a: Loc, n: nat) returns (m: nat)
    requires IsOrder(x) && n < k <= |x.gmo| && Writes(At(x, n)) && At(x, n).a == a
    ensures n <= m < k && Writes(At(x, m)) && At(x, m).a == a
    ensures forall i: nat | m < i < k && Writes(At(x, i)) :: At(x, i).a != a
    decreases k
  {
    if Writes(At(x, k - 1)) && At(x, k - 1).a == a { m := k - 1; } else { m := LastWrite(x, k - 1, a, n); }
  }

  /** Where the chosen operations keep program order and the stores to a word are among them, every chosen load of
      the word reads the memory of that moment: forwarding and early loads become invisible. */
  lemma ChosenLoadReadsMemory(x: Execution, c: Choice, m: nat)
    requires Allowed(x) && InProgramOrder(x, c) && m < |x.gmo| && Reads(At(x, m)) && Chosen(x, c, m)
    requires ChoosesStores(c, At(x, m).a)
    ensures ReadValue(At(x, m)) == Memory(x, m, At(x, m).a)
  {
    assert LoadValue(x, m);
    forall n: nat | n < |x.gmo| && Visible(x, n, m) ensures n < m {
      assert Chosen(x, c, n);
    }
    if exists n: nat :: n < |x.gmo| && Visible(x, n, m) {
      var n: nat :| n < |x.gmo| && ReturnsFrom(x, n, m) && ReadValue(At(x, m)) == WriteValue(At(x, n));
      forall i: nat | n < i < m && Writes(At(x, i)) ensures At(x, i).a != At(x, m).a {
        assert !Visible(x, i, m);
      }
      MemoryIsLatest(x, m, At(x, m).a, n);
    } else {
      forall i: nat | i < m && Writes(At(x, i)) ensures At(x, i).a != At(x, m).a {
        assert !Visible(x, i, m);
      }
      MemoryIsInitial(x, m, At(x, m).a);
    }
  }

  /** A load to which every store of its word is visible reads the final memory, however early it performs. */
  lemma AllVisibleReadsFinal(x: Execution, m: nat)
    requires Allowed(x) && m < |x.gmo| && At(x, m).Load?
    requires forall n: nat | n < |x.gmo| && Writes(At(x, n)) && At(x, n).a == At(x, m).a :: Visible(x, n, m)
    ensures At(x, m).v == Memory(x, |x.gmo|, At(x, m).a)
  {
    assert LoadValue(x, m);
    if exists n: nat :: n < |x.gmo| && Visible(x, n, m) {
      var n: nat :| n < |x.gmo| && ReturnsFrom(x, n, m) && ReadValue(At(x, m)) == WriteValue(At(x, n));
      MemoryIsLatest(x, |x.gmo|, At(x, m).a, n);
    } else {
      MemoryIsInitial(x, |x.gmo|, At(x, m).a);
    }
  }

  // ---- Progress of each hart along the global memory order ----

  /** How far hart h's chosen operations have come after k operations of the global memory order. */
  ghost function Done(x: Execution, c: Choice, h: nat, k: nat): (d: nat)
    requires IsOrder(x) && k <= |x.gmo|
    ensures h < |x.prog| ==> d <= |x.prog[h]|
  {
    if k == 0 then 0
    else if x.gmo[k - 1].hart == h && Chosen(x, c, k - 1) then x.gmo[k - 1].i + 1
    else Done(x, c, h, k - 1)
  }

  /** Done is the end of the last chosen operation performed so far. */
  lemma {:induction false} DoneBounds(x: Execution, c: Choice, k: nat, n: nat)
    requires IsOrder(x) && InProgramOrder(x, c) && k <= |x.gmo| && n < |x.gmo| && Chosen(x, c, n)
    ensures n < k ==> x.gmo[n].i < Done(x, c, x.gmo[n].hart, k)
    ensures n >= k ==> Done(x, c, x.gmo[n].hart, k) <= x.gmo[n].i
    decreases k
  {
    if k > 0 {
      DoneBounds(x, c, k - 1, n);
      if x.gmo[k - 1].hart == x.gmo[n].hart && Chosen(x, c, k - 1) && n != k - 1 {
        assert if n < k - 1 then Apart(x, n, k - 1) else Apart(x, k - 1, n);
      }
    }
  }

  /** The operations a hart skips between two chosen ones are not chosen. */
  lemma NothingSkipped(x: Execution, c: Choice, n: nat, j: nat)
    requires IsOrder(x) && InProgramOrder(x, c) && n < |x.gmo| && Chosen(x, c, n)
    requires Done(x, c, x.gmo[n].hart, n) <= j < x.gmo[n].i
    ensures !c(x.gmo[n].hart, j, x.prog[x.gmo[n].hart][j])
  {
    var h := x.gmo[n].hart;
    if c(h, j, x.prog[h][j]) {
      var m := Position(x, Event(h, j));
      assert Chosen(x, c, m);
      DoneBounds(x, c, n, m);
    }
  }

  /** After the whole execution no chosen operation is left. */
  lemma AllDone(x: Execution, c: Choice, h: nat, j: nat)
    requires IsOrder(x) && InProgramOrder(x, c) && h < |x.prog| && Done(x, c, h, |x.gmo|) <= j < |x.prog[h]|
    ensures !c(h, j, x.prog[h][j])
  {
    if c(h, j, x.prog[h][j]) {
      var m := Position(x, Event(h, j));
      assert Chosen(x, c, m);
      DoneBounds(x, c, |x.gmo|, m);
    }
  }

  // ---- Counting ----

  function Count(t: Trace, n: nat, f: Op -> bool): nat
    requires n <= |t|
  {
    if n == 0 then 0 else Count(t, n - 1, f) + (if f(t[n - 1]) then 1 else 0)
  }

  lemma {:induction false} CountSkips(t: Trace, d: nat, n: nat, f: Op -> bool)
    requires d <= n <= |t| && forall j | d <= j < n :: !f(t[j])
    ensures Count(t, n, f) == Count(t, d, f)
    decreases n
  {
    if d < n { CountSkips(t, d, n - 1, f); }
  }

  function Sum(s: seq<nat>): nat { if s == [] then 0 else Sum(s[..|s| - 1]) + s[|s| - 1] }

  lemma {:induction false} SumUpdate(s: seq<nat>, h: nat, v: nat)
    requires h < |s|
    ensures Sum(s[h := v]) == Sum(s) - s[h] + v
    decreases |s|
  {
    var n := |s| - 1;
    if h < n {
      SumUpdate(s[..n], h, v);
      assert s[h := v][..n] == s[..n][h := v];
    } else {
      assert s[h := v][..n] == s[..n];
    }
  }

  /** Per hart, how many chosen operations with property f have been performed. */
  ghost function Counts(x: Execution, c: Choice, k: nat, f: Op -> bool): (s: seq<nat>)
    requires IsOrder(x) && k <= |x.gmo|
    ensures |s| == |x.prog|
  {
    seq(|x.prog|, h requires 0 <= h < |x.prog| => Count(x.prog[h], Done(x, c, h, k), f))
  }

  /** How many operations with property f are among the first k of the global memory order. */
  ghost function Performed(x: Execution, k: nat, f: Op -> bool): nat
    requires IsOrder(x) && k <= |x.gmo|
  {
    if k == 0 then 0 else Performed(x, k - 1, f) + (if f(At(x, k - 1)) then 1 else 0)
  }

  lemma CountStep(x: Execution, c: Choice, k: nat, f: Op -> bool)
    requires IsOrder(x) && InProgramOrder(x, c) && k < |x.gmo|
    requires forall h: nat, i: nat, op: Op | f(op) :: c(h, i, op)
    ensures Sum(Counts(x, c, k + 1, f)) == Sum(Counts(x, c, k, f)) + (if f(At(x, k)) then 1 else 0)
  {
    var h, i := x.gmo[k].hart, x.gmo[k].i;
    var s, s' := Counts(x, c, k, f), Counts(x, c, k + 1, f);
    if Chosen(x, c, k) {
      DoneBounds(x, c, k, k);
      var d := Done(x, c, h, k);
      forall j | d <= j < i ensures !f(x.prog[h][j]) { NothingSkipped(x, c, k, j); }
      CountSkips(x.prog[h], d, i, f);
      assert s' == s[h := s[h] + (if f(At(x, k)) then 1 else 0)];
      SumUpdate(s, h, s[h] + (if f(At(x, k)) then 1 else 0));
    } else {
      assert s' == s;
    }
  }

  lemma {:induction false} PerformedIsSum(x: Execution, c: Choice, k: nat, f: Op -> bool)
    requires IsOrder(x) && InProgramOrder(x, c) && k <= |x.gmo|
    requires forall h: nat, i: nat, op: Op | f(op) :: c(h, i, op)
    ensures Performed(x, k, f) == Sum(Counts(x, c, k, f))
    decreases k
  {
    if k > 0 {
      PerformedIsSum(x, c, k - 1, f);
      CountStep(x, c, k - 1, f);
    } else {
      ZeroSum(Counts(x, c, 0, f));
    }
  }

  lemma {:induction false} ZeroSum(s: seq<nat>)
    requires forall h | 0 <= h < |s| :: s[h] == 0
    ensures Sum(s) == 0
    decreases |s|
  {
    if s != [] { ZeroSum(s[..|s| - 1]); }
  }

  /** Over the whole execution the operations with property f number as many as in all the programs together. */
  lemma PerformedInAll(x: Execution, c: Choice, f: Op -> bool)
    requires IsOrder(x) && InProgramOrder(x, c)
    requires forall h: nat, i: nat, op: Op | f(op) :: c(h, i, op)
    ensures Performed(x, |x.gmo|, f)
         == Sum(seq(|x.prog|, h requires 0 <= h < |x.prog| => Count(x.prog[h], |x.prog[h]|, f)))
  {
    var all := seq(|x.prog|, h requires 0 <= h < |x.prog| => Count(x.prog[h], |x.prog[h]|, f));
    PerformedIsSum(x, c, |x.gmo|, f);
    forall h: nat | h < |x.prog|
      ensures Count(x.prog[h], |x.prog[h]|, f) == Count(x.prog[h], Done(x, c, h, |x.gmo|), f)
    {
      forall j | Done(x, c, h, |x.gmo|) <= j < |x.prog[h]| ensures !f(x.prog[h][j]) { AllDone(x, c, h, j); }
      CountSkips(x.prog[h], Done(x, c, h, |x.gmo|), |x.prog[h]|, f);
    }
    assert Counts(x, c, |x.gmo|, f) == all;
  }
}
