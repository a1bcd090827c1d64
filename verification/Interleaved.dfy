/** Executions built one operation at a time, each read returning the memory of its moment: the model allows them all.
    They show that what the theorems speak about can happen. */
module Interleaved {
  import opened Words
  import opened Rvwmo

  /** Every hart performs in program order and every read returns the memory of that moment. */
  ghost predicate Sequential(x: Execution) {
    && IsOrder(x)
    && (forall m: nat, n: nat {:trigger Apart(x, m, n)} |
          m < |x.gmo| && n < |x.gmo| && x.gmo[m].hart == x.gmo[n].hart && x.gmo[m].i < x.gmo[n].i :: m < n)
    && (forall m: nat {:trigger Reads(At(x, m))} | m < |x.gmo| && Reads(At(x, m)) ::
          ReadValue(At(x, m)) == Memory(x, m, At(x, m).a))
  }

  ghost function Final(x: Execution, a: Loc): Word
    requires IsOrder(x)
  {
    Memory(x, |x.gmo|, a)
  }

  /** No hart has done anything yet. */
  function NotStarted(init: Loc -> Word, harts: nat): Execution { Execution(init, seq(harts, _ => []), []) }

  lemma NotStartedIsSequential(init: Loc -> Word, harts: nat)
    ensures Sequential(NotStarted(init, harts)) && forall a :: Final(NotStarted(init, harts), a) == init(a)
  {
  }

  /** Hart h's next operation, performed at once. */
  function Then(x: Execution, h: nat, op: Op): (y: Execution)
    requires h < |x.prog|
    ensures |y.prog| == |x.prog|
  {
    Execution(
      x.init, x.prog[h := x.prog[h] + [op]], if IsMem(op) then x.gmo + [Event(h, |x.prog[h]|)] else x.gmo)
  }

  lemma ThenOrder(x: Execution, h: nat, op: Op)
    requires IsOrder(x) && h < |x.prog|
    ensures IsOrder(Then(x, h, op))
    ensures forall n: nat | n < |x.gmo| :: Then(x, h, op).gmo[n] == x.gmo[n] && At(Then(x, h, op), n) == At(x, n)
  {
    var y := Then(x, h, op);
    forall n | 0 <= n < |y.gmo| ensures IsEvent(y, y.gmo[n]) {
      if n < |x.gmo| { assert IsEvent(x, x.gmo[n]); }
    }
    forall m: nat, n: nat | m < n < |y.gmo| ensures Apart(y, m, n) {
      assert IsEvent(x, x.gmo[m]);
      if n < |x.gmo| { assert Apart(x, m, n); }
    }
    forall e | IsEvent(y, e) ensures e in y.gmo {
      if IsEvent(x, e) { assert e in x.gmo; } else { assert e == y.gmo[|y.gmo| - 1]; }
    }
  }

  lemma {:induction false} ThenKeepsMemory(x: Execution, h: nat, op: Op, k: nat, a: Loc)
    requires IsOrder(x) && h < |x.prog| && k <= |x.gmo|
    ensures IsOrder(Then(x, h, op)) && Memory(Then(x, h, op), k, a) == Memory(x, k, a)
    decreases k
  {
    ThenOrder(x, h, op);
    if k > 0 { ThenKeepsMemory(x, h, op, k - 1, a); }
  }

  /** One more operation, a read if it returns what is in memory, keeps an execution sequential. */
  lemma ThenSequential(x: Execution, h: nat, op: Op)
    requires Sequential(x) && h < |x.prog| && (Reads(op) ==> ReadValue(op) == Final(x, op.a))
    ensures Sequential(Then(x, h, op))
    ensures forall a :: Final(Then(x, h, op), a) == Written(op, a, Final(x, a))
  {
    var y := Then(x, h, op);
    ThenOrder(x, h, op);
    forall m: nat, n: nat | m < |y.gmo| && n < |y.gmo| && y.gmo[m].hart == y.gmo[n].hart && y.gmo[m].i < y.gmo[n].i
      ensures m < n
    {
      if m < |x.gmo| { assert IsEvent(x, x.gmo[m]); }
      if n < |x.gmo| { assert IsEvent(x, x.gmo[n]); }
      if m < |x.gmo| && n < |x.gmo| { assert Apart(x, m, n); }
    }
    forall m: nat | m < |y.gmo| && Reads(At(y, m)) ensures ReadValue(At(y, m)) == Memory(y, m, At(y, m).a) {
      ThenKeepsMemory(x, h, op, m, At(y, m).a);
      if m < |x.gmo| { assert Reads(At(x, m)); }
    }
    forall a ensures Final(y, a) == Written(op, a, Final(x, a)) {
      ThenKeepsMemory(x, h, op, |x.gmo|, a);
    }
  }

  /** RVWMO allows every sequential execution. */
  lemma SequentialIsAllowed(x: Execution)
    requires Sequential(x)
    ensures Allowed(x)
  {
    forall m: nat, n: nat | m < |x.gmo| && n < |x.gmo| && x.gmo[m].hart == x.gmo[n].hart && x.gmo[m].i < x.gmo[n].i
        && Preserved(x.prog[x.gmo[m].hart], x.gmo[m].i, x.gmo[n].i)
      ensures m < n
    {
      OneApart(x, m, n);
    }
    forall m: nat | m < |x.gmo| && Reads(At(x, m)) ensures LoadValue(x, m) { ReadsLatest(x, m); }
  }

  lemma OneApart(x: Execution, m: nat, n: nat)
    requires IsOrder(x) && m < |x.gmo| && n < |x.gmo| && x.gmo[m] != x.gmo[n]
    ensures Apart(x, m, n)
  {
  }

  lemma ReadsLatest(x: Execution, m: nat)
    requires Sequential(x) && m < |x.gmo| && Reads(At(x, m))
    ensures LoadValue(x, m)
  {
    var a := At(x, m).a;
    forall n: nat | n < |x.gmo| && Visible(x, n, m) ensures n < m {
      if x.gmo[n].hart == x.gmo[m].hart && x.gmo[n].i < x.gmo[m].i { OneApart(x, n, m); }
    }
    if n: nat :| n < |x.gmo| && Visible(x, n, m) {
      var k := LastWrite(x, m, a, n);
      assert Visible(x, k, m);
      MemoryIsLatest(x, m, a, k);
      assert ReturnsFrom(x, k, m);
    } else {
      forall i: nat | i < m && Writes(At(x, i)) ensures At(x, i).a != a { assert !Visible(x, i, m); }
      MemoryIsInitial(x, m, a);
    }
  }

  // ---- Several operations of one hart in a row ----

  function ThenAll(x: Execution, h: nat, t: Trace): (y: Execution)
    requires h < |x.prog|
    ensures |y.prog| == |x.prog|
    decreases |t|
  {
    if t == [] then x else ThenAll(Then(x, h, t[0]), h, t[1..])
  }

  /** Memory after an operation, and after a trace. */
  function Updated(f: Loc -> Word, op: Op): Loc -> Word { (a: Loc) => Written(op, a, f(a)) }

  function UpdatedAll(f: Loc -> Word, t: Trace): Loc -> Word
    decreases |t|
  {
    if t == [] then f else UpdatedAll(Updated(f, t[0]), t[1..])
  }

  /** Run alone from memory f, every read of the trace returns what is there. */
  predicate Fits(f: Loc -> Word, t: Trace)
    decreases |t|
  {
    t == [] || ((Reads(t[0]) ==> ReadValue(t[0]) == f(t[0].a)) && Fits(Updated(f, t[0]), t[1..]))
  }

  /** The memory of an execution is f. */
  ghost predicate Ends(x: Execution, f: Loc -> Word)
    requires IsOrder(x)
  {
    forall a {:trigger f(a)} {:trigger Final(x, a)} :: Final(x, a) == f(a)
  }

  lemma {:induction false} ThenAllPrograms(x: Execution, h: nat, t: Trace)
    requires h < |x.prog|
    ensures var y := ThenAll(x, h, t);
      y.init == x.init && y.prog[h] == x.prog[h] + t && forall g | 0 <= g < |x.prog| && g != h :: y.prog[g] == x.prog[g]
    decreases |t|
  {
    if t != [] {
      ThenAllPrograms(Then(x, h, t[0]), h, t[1..]);
      assert t == [t[0]] + t[1..];
    }
  }

  lemma {:induction false} ThenAllSequential(x: Execution, h: nat, t: Trace, f: Loc -> Word)
    requires Sequential(x) && h < |x.prog| && Ends(x, f) && Fits(f, t)
    ensures Sequential(ThenAll(x, h, t)) && Ends(ThenAll(x, h, t), UpdatedAll(f, t))
    decreases |t|
  {
    if t != [] {
      ThenSequential(x, h, t[0]);
      assert Ends(Then(x, h, t[0]), Updated(f, t[0]));
      ThenAllSequential(Then(x, h, t[0]), h, t[1..], Updated(f, t[0]));
    }
  }
}
