/** The dual-core smoke test (P4.0) under RVWMO: core 0 clears the shared fields and posts a job that stores a payload
    and, behind fence w,w, a flag; core 0 waits for the flag and reads the payload. */
module SmokeTest {
  import opened Words
  import opened Rvwmo
  import opened Handshake
  import opened Clearing
  import opened Interleaved

  const PAYLOAD: Loc := 0
  const WROTE: Loc := 1
  const MAILBOX: Loc := 2

  /** Core 0 clears both fields before its post and stores neither afterwards. */
  ghost predicate Clean(x: Execution, p: Prologue) {
    && Posts(x, p, MAILBOX) && Within(x, p) && WROTE < p.spare && Cleared(x, p, PAYLOAD) && Cleared(x, p, WROTE)
    && forall i: nat | i < |x.prog[0]| && Writes(x.prog[0][i]) && x.prog[0][i].a <= WROTE ::
         IsClear(p, 0, i, x.prog[0][i])
  }

  /** Core 1 writes nothing but the magic number to the payload, all of it behind the call and before the flag. */
  ghost predicate MagicWriter(x: Execution, magic: Word)
    requires IsOrder(x) && |x.prog| == 2
  {
    && (forall h: nat, i: nat {:trigger x.prog[h][i]} |
          0 < h < |x.prog| && i < |x.prog[h]| && IsMem(x.prog[h][i]) && x.prog[h][i].a != MAILBOX ::
          Writes(x.prog[h][i]) && Called(x, h, i, MAILBOX))
    && (forall i: nat {:trigger x.prog[1][i]} | i < |x.prog[1]| && Writes(x.prog[1][i]) && x.prog[1][i].a == PAYLOAD ::
          WriteValue(x.prog[1][i]) == magic)
    && (forall d: nat {:trigger Raises(x.prog[1], d, WROTE, 1)} | Raises(x.prog[1], d, WROTE, 1) ::
          exists s: nat {:trigger x.prog[1][s]} ::
            && s < |x.prog[1]| && Writes(x.prog[1][s]) && x.prog[1][s].a == PAYLOAD
            && BehindStores(x.prog[1], s, d))
  }

  /** With a fence w,w before the post and a fence r,rw behind the wait the assertion holds in every execution, from any
      memory and for every magic number. */
  lemma FencedTestPasses(x: Execution, p: Prologue, magic: Word, i: nat, j: nat)
    requires Clean(x, p) && |x.prog| == 2 && MagicWriter(x, magic)
    requires i < |x.prog[0]| && x.prog[0][i] == Load(WROTE, 1) && BehindLoads(x.prog[0], i, j)
    requires j < |x.prog[0]| && x.prog[0][j].Load? && x.prog[0][j].a == PAYLOAD
    ensures x.prog[0][j].v == magic
  {
    StoringJobs(x, p, MAILBOX);
    PostOrdersClearing(x, p, MAILBOX);
    FromClearedAllowed(x, p);
    SameEvents(x, p);
    var y := FromCleared(x, p);
    var m, n := Position(x, Event(0, i)), Position(x, Event(0, j));
    var k := StoreReturned(y, m);
    SeenFromOne(x, p, k);
    var s := PayloadBehind(x, magic, k);
    StoresInOrder(x, s, k);
    LoadsInOrder(x, m, n);
    assert Visible(y, s, n);
    var r := StoreReturned(y, n);
    SeenFromOne(x, p, r);
  }

  /** Setting the clearing stores aside, only core 1 stores the two fields. */
  lemma SeenFromOne(x: Execution, p: Prologue, k: nat)
    requires Clean(x, p) && |x.prog| == 2 && k < |x.gmo| && IsOrder(FromCleared(x, p))
    requires Writes(At(FromCleared(x, p), k)) && At(FromCleared(x, p), k).a <= WROTE
    ensures x.gmo[k].hart == 1 && At(x, k) == At(FromCleared(x, p), k)
  {
    SameEvents(x, p);
  }

  lemma PayloadBehind(x: Execution, magic: Word, k: nat) returns (s: nat)
    requires IsOrder(x) && |x.prog| == 2 && MagicWriter(x, magic) && k < |x.gmo| && x.gmo[k].hart == 1
    requires Writes(At(x, k)) && At(x, k).a == WROTE && WriteValue(At(x, k)) == 1
    ensures s < |x.gmo| && x.gmo[s].hart == 1 && Writes(At(x, s)) && At(x, s).a == PAYLOAD
    ensures BehindStores(x.prog[1], x.gmo[s].i, x.gmo[k].i)
  {
    var d := x.gmo[k].i;
    assert Raises(x.prog[1], d, WROTE, 1);
    var i: nat :|
      && i < |x.prog[1]| && Writes(x.prog[1][i]) && x.prog[1][i].a == PAYLOAD && BehindStores(x.prog[1], i, d);
    s := Position(x, Event(1, i));
  }

  // ---- The fenced test runs to its end ----

  /** The words of the test after a sequential execution. */
  ghost predicate Ends3(x: Execution, payload: Word, wrote: Word, mailbox: Word) {
    Sequential(x) && Final(x, PAYLOAD) == payload && Final(x, WROTE) == wrote && Final(x, MAILBOX) == mailbox
  }

  /** One more operation of hart h. */
  lemma Goes(x: Execution, h: nat, op: Op, rest: Trace)
    requires Sequential(x) && h < |x.prog| && (Reads(op) ==> ReadValue(op) == Final(x, op.a))
    ensures ThenAll(x, h, [op] + rest) == ThenAll(Then(x, h, op), h, rest)
    ensures Ends3(Then(x, h, op), Written(op, PAYLOAD, Final(x, PAYLOAD)), Written(op, WROTE, Final(x, WROTE)),
                  Written(op, MAILBOX, Final(x, MAILBOX)))
  {
    ThenSequential(x, h, op);
    assert ([op] + rest)[1..] == rest;
  }

  function SetUp(): Trace { [Store(PAYLOAD, 0), Store(WROTE, 0), FENCE_W_W, Store(MAILBOX, 1), FENCE_W_W] }

  function Job(magic: Word): Trace {
    [Load(MAILBOX, 1), Load(MAILBOX, 1), Store(PAYLOAD, magic), FENCE_W_W, Store(WROTE, 1)]
  }

  function Check(magic: Word): Trace { [Load(WROTE, 1), FENCE_R_RW, Load(PAYLOAD, magic)] }

  lemma SetUpRuns(x: Execution)
    requires Sequential(x) && |x.prog| == 2
    ensures Ends3(ThenAll(x, 0, SetUp()), 0, 0, 1)
  {
    var x1 := Then(x, 0, Store(PAYLOAD, 0));
    var x2 := Then(x1, 0, Store(WROTE, 0));
    var x3 := Then(x2, 0, FENCE_W_W);
    var x4 := Then(x3, 0, Store(MAILBOX, 1));
    Goes(x, 0, Store(PAYLOAD, 0), [Store(WROTE, 0), FENCE_W_W, Store(MAILBOX, 1), FENCE_W_W]);
    Goes(x1, 0, Store(WROTE, 0), [FENCE_W_W, Store(MAILBOX, 1), FENCE_W_W]);
    Goes(x2, 0, FENCE_W_W, [Store(MAILBOX, 1), FENCE_W_W]);
    Goes(x3, 0, Store(MAILBOX, 1), [FENCE_W_W]);
    Goes(x4, 0, FENCE_W_W, []);
    assert [FENCE_W_W] + [] == [FENCE_W_W];
  }

  lemma JobRuns(x: Execution, magic: Word)
    requires Ends3(x, 0, 0, 1) && |x.prog| == 2
    ensures Ends3(ThenAll(x, 1, Job(magic)), magic, 1, 1)
  {
    var x1 := Then(x, 1, Load(MAILBOX, 1));
    var x2 := Then(x1, 1, Load(MAILBOX, 1));
    var x3 := Then(x2, 1, Store(PAYLOAD, magic));
    var x4 := Then(x3, 1, FENCE_W_W);
    Goes(x, 1, Load(MAILBOX, 1), [Load(MAILBOX, 1), Store(PAYLOAD, magic), FENCE_W_W, Store(WROTE, 1)]);
    Goes(x1, 1, Load(MAILBOX, 1), [Store(PAYLOAD, magic), FENCE_W_W, Store(WROTE, 1)]);
    Goes(x2, 1, Store(PAYLOAD, magic), [FENCE_W_W, Store(WROTE, 1)]);
    Goes(x3, 1, FENCE_W_W, [Store(WROTE, 1)]);
    Goes(x4, 1, Store(WROTE, 1), []);
    assert [Store(WROTE, 1)] + [] == [Store(WROTE, 1)];
  }

  lemma CheckRuns(x: Execution, magic: Word)
    requires Ends3(x, magic, 1, 1) && |x.prog| == 2
    ensures Sequential(ThenAll(x, 0, Check(magic)))
  {
    var x1 := Then(x, 0, Load(WROTE, 1));
    var x2 := Then(x1, 0, FENCE_R_RW);
    Goes(x, 0, Load(WROTE, 1), [FENCE_R_RW, Load(PAYLOAD, magic)]);
    Goes(x1, 0, FENCE_R_RW, [Load(PAYLOAD, magic)]);
    Goes(x2, 0, Load(PAYLOAD, magic), []);
    assert [Load(PAYLOAD, magic)] + [] == [Load(PAYLOAD, magic)];
  }

  /** Hart 0, hart 1, and hart 0 again. */
  function Turns(x: Execution, t0: Trace, t1: Trace, t2: Trace): (y: Execution)
    requires |x.prog| == 2
    ensures |y.prog| == 2
  {
    ThenAll(ThenAll(ThenAll(x, 0, t0), 1, t1), 0, t2)
  }

  lemma TurnsPrograms(x: Execution, t0: Trace, t1: Trace, t2: Trace)
    requires |x.prog| == 2 && x.prog[0] == [] && x.prog[1] == []
    ensures var y := Turns(x, t0, t1, t2); y.init == x.init && y.prog[0] == t0 + t2 && y.prog[1] == t1
  {
    var x1 := ThenAll(x, 0, t0);
    var x2 := ThenAll(x1, 1, t1);
    ThenAllPrograms(x, 0, t0);
    ThenAllPrograms(x1, 1, t1);
    ThenAllPrograms(x2, 0, t2);
  }

  lemma TurnsRun(x: Execution, magic: Word)
    requires Sequential(x) && |x.prog| == 2
    ensures Sequential(Turns(x, SetUp(), Job(magic), Check(magic)))
  {
    SetUpRuns(x);
    JobRuns(ThenAll(x, 0, SetUp()), magic);
    CheckRuns(ThenAll(ThenAll(x, 0, SetUp()), 1, Job(magic)), magic);
  }

  lemma SequentialControls(x: Execution, h: nat, i: nat)
    requires Sequential(x)
    ensures Controls(x, h, i)
  {
    forall m: nat, n: nat | m < |x.gmo| && n < |x.gmo| && x.gmo[m] == Event(h, i) && x.gmo[n].hart == h
        && i < x.gmo[n].i && Writes(At(x, n))
      ensures m < n
    {
      OneApart(x, m, n);
    }
  }

  lemma WholeRunIsMagic(x: Execution, magic: Word)
    requires Sequential(x) && |x.prog| == 2 && x.prog[1] == Job(magic)
    ensures MagicWriter(x, magic)
  {
    SequentialControls(x, 1, 1);
    assert SawPost(x.prog[1][1], MAILBOX);
    assert Called(x, 1, 2, MAILBOX) && Called(x, 1, 4, MAILBOX);
    forall d: nat | Raises(x.prog[1], d, WROTE, 1) ensures BehindStores(x.prog[1], 2, d) {
      assert x.prog[1][3] == FENCE_W_W && 2 < 3 < d;
    }
    assert Writes(x.prog[1][2]) && x.prog[1][2].a == PAYLOAD;
  }

  lemma WholeRunIsClean(x: Execution, magic: Word)
    requires Allowed(x) && |x.prog| == 2 && x.init(MAILBOX) == 0
    requires x.prog[0] == SetUp() + Check(magic) && x.prog[1] == Job(magic)
    ensures Clean(x, Prologue(2, 3))
  {
    var p := Prologue(2, 3);
    assert ClearsAt(x, p, 0, PAYLOAD) && ClearsAt(x, p, 1, WROTE);
    forall i: nat, d: nat | i < p.setup && d < |x.prog[0]| && Writes(x.prog[0][d]) && x.prog[0][d].a == MAILBOX
      ensures BehindStores(x.prog[0], i, d)
    {
      assert x.prog[0][2] == FENCE_W_W && i < 2 < d;
    }
  }

  /** From any memory and for every magic number there is an execution of the fenced test that runs to its end and reads
      the magic number: what FencedTestPasses speaks of can happen. */
  lemma FencedTestRuns(init: Loc -> Word, magic: Word) returns (x: Execution)
    requires init(MAILBOX) == 0
    ensures Clean(x, Prologue(2, 3)) && |x.prog| == 2 && MagicWriter(x, magic) && x.init == init
    ensures x.prog[0] == [Store(PAYLOAD, 0), Store(WROTE, 0), FENCE_W_W, Store(MAILBOX, 1), FENCE_W_W]
                         + [Load(WROTE, 1), FENCE_R_RW, Load(PAYLOAD, magic)]
  {
    var x0 := NotStarted(init, 2);
    x := Turns(x0, SetUp(), Job(magic), Check(magic));
    NotStartedIsSequential(init, 2);
    TurnsRun(x0, magic);
    TurnsPrograms(x0, SetUp(), Job(magic), Check(magic));
    SequentialIsAllowed(x);
    WholeRunIsMagic(x, magic);
    WholeRunIsClean(x, magic);
  }

  // ---- Both fences are needed, and the test has neither ----

  function LateRun(posted: bool, awaited: bool): Execution {
    Execution(
      (a: Loc) => 0,
      [[Store(PAYLOAD, 0), Optional(posted, FENCE_W_W), Store(MAILBOX, 1), FENCE_W_W,
        Load(WROTE, 1), Optional(awaited, FENCE_R_RW), Load(PAYLOAD, 0)],
       [Load(MAILBOX, 1), Load(MAILBOX, 1), Store(PAYLOAD, 7), FENCE_W_W, Store(WROTE, 1)]],
      if posted then
        [Event(0, 0), Event(0, 2), Event(0, 6), Event(1, 0), Event(1, 1), Event(1, 2), Event(1, 4), Event(0, 4)]
      else
        [Event(0, 2), Event(1, 0), Event(1, 1), Event(1, 2), Event(1, 4), Event(0, 0), Event(0, 4), Event(0, 6)])
  }

  /** Where an event of the run stands in its global memory order. */
  function LatePlace(posted: bool, e: Event): nat {
    if e.hart == 0 then
      (if e.i == 0 then (if posted then 0 else 5) else if e.i == 2 then (if posted then 1 else 0)
       else if e.i == 4 then (if posted then 7 else 6) else if posted then 2 else 7)
    else
      (if e.i == 0 then 1 else if e.i == 1 then 2 else if e.i == 2 then 3 else 4) + if posted then 2 else 0
  }

  lemma LateEvent(posted: bool, awaited: bool, n: nat)
    requires n < 8
    ensures IsEvent(LateRun(posted, awaited), LateRun(posted, awaited).gmo[n])
    ensures LatePlace(posted, LateRun(posted, awaited).gmo[n]) == n
  {
  }

  lemma LateComplete(posted: bool, awaited: bool, e: Event)
    requires IsEvent(LateRun(posted, awaited), e)
    ensures LatePlace(posted, e) < 8 && LateRun(posted, awaited).gmo[LatePlace(posted, e)] == e
  {
  }

  lemma LateOrder(posted: bool, awaited: bool)
    ensures IsOrder(LateRun(posted, awaited)) && |LateRun(posted, awaited).gmo| == 8
  {
    var x := LateRun(posted, awaited);
    forall n | 0 <= n < |x.gmo| ensures IsEvent(x, x.gmo[n]) && LatePlace(posted, x.gmo[n]) == n {
      LateEvent(posted, awaited, n);
    }
    forall e | IsEvent(x, e) ensures e in x.gmo { LateComplete(posted, awaited, e); }
  }

  lemma LateReorders(posted: bool, awaited: bool)
    requires !posted || !awaited
    ensures IsOrder(LateRun(posted, awaited)) && ReordersUnordered(LateRun(posted, awaited))
  {
    var x := LateRun(posted, awaited);
    LateOrder(posted, awaited);
    assert posted ==> Unordered(x.prog[0], 4, 6);
    assert !posted ==> Unordered(x.prog[0], 0, 2);
    forall m: nat, n: nat | n < m < |x.gmo| && x.gmo[m].hart == x.gmo[n].hart && x.gmo[m].i < x.gmo[n].i
      ensures Unordered(x.prog[x.gmo[m].hart], x.gmo[m].i, x.gmo[n].i)
    {
      assert if posted then n == 2 && m == 7 else n == 0 && m == 5;
    }
  }

  lemma LateReads(posted: bool, awaited: bool, m: nat)
    requires IsOrder(LateRun(posted, awaited)) && m < 8 && Reads(At(LateRun(posted, awaited), m))
    ensures LoadValue(LateRun(posted, awaited), m)
  {
    var x := LateRun(posted, awaited);
    if posted {
      if m == 2 { assert ReturnsFrom(x, 0, 2); }
      if m == 3 || m == 4 { assert ReturnsFrom(x, 1, m); }
      if m == 7 { assert ReturnsFrom(x, 6, 7); }
    } else {
      if m == 1 || m == 2 { assert ReturnsFrom(x, 0, m); }
      if m == 6 { assert ReturnsFrom(x, 4, 6); }
      if m == 7 { assert ReturnsFrom(x, 5, 7); }
    }
  }

  /** Without either fence, and so in the test, core 0 may see the flag and read its own cleared payload. */
  lemma UnfencedTestFails(posted: bool, awaited: bool)
    requires !posted || !awaited
    ensures var x := LateRun(posted, awaited);
      && Genuine(x) && Controls(x, 1, 1)
      && x.prog[0][4] == Load(WROTE, 1) && x.prog[0][6] == Load(PAYLOAD, 0) && x.prog[1][2] == Store(PAYLOAD, 7)
  {
    var x := LateRun(posted, awaited);
    LateReorders(posted, awaited);
    forall m: nat | m < |x.gmo| && Reads(At(x, m)) ensures LoadValue(x, m) {
      LateOrder(posted, awaited);
      LateReads(posted, awaited, m);
    }
    GenuineControls(x, 1, 1);
  }
}
