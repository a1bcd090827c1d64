/** The ping-pong of the dual-core test (P4.4) under RVWMO, for every number of rounds: two harts hand a turn back
    and forth and each increments a plain counter while the turn is its own. The spin loads are unordered; it is the
    value they wait for that orders a round after the previous one. */
module PingPong {
  import opened Words
  import opened Rvwmo
  import opened Handshake
  import opened Clearing

  const TURN: Loc := 0
  const COUNT: Loc := 1
  const MAILBOX: Loc := 2

  /** Where hart `me` stands in round n of `spin_wait(turn, me); fence r,rw; count += 1; fence rw,w; turn = 1 - me`. */
  datatype Point =
    | Spinning(n: nat)
    | Won(n: nat)
    | Entered(n: nat)
    | Loaded(n: nat, v: Word)
    | Stored(n: nat)
    | Leaving(n: nat)
    | Astray

  function Next(me: nat, s: Point, op: Op): Point {
    match s
    case Spinning(n) =>
      if op.Fence? || op.a > COUNT then Spinning(n)     // clearing other words, posting or taking the job
      else if op.Load? && op.a == TURN then (if op.v == me then Won(n) else Spinning(n))
      else Astray
    case Won(n) => if op == Fence(true, false, true, true) then Entered(n) else Astray
    case Entered(n) => if op.Load? && op.a == COUNT then Loaded(n, op.v) else Astray
    case Loaded(n, v) => if op == Store(COUNT, Succ(v)) then Stored(n) else Astray
    case Stored(n) => if op == Fence(true, true, false, true) then Leaving(n) else Astray
    case Leaving(n) => if op.Store? && op.a == TURN && op.v == 1 - me then Spinning(n + 1) else Astray
    case Astray => Astray
  }

  function PointAt(me: nat, t: Trace, n: nat): Point
    requires n <= |t|
  {
    if n == 0 then Spinning(0) else Next(me, PointAt(me, t, n - 1), t[n - 1])
  }

  /** The loop of hart `me`, stopped anywhere; core 0's final check is a last round that stops after its load. */
  predicate Player(me: nat, t: Trace) { PointAt(me, t, |t|) != Astray }

  lemma {:induction false} NeverAstray(me: nat, t: Trace, n: nat)
    requires Player(me, t) && n <= |t|
    ensures PointAt(me, t, n) != Astray
    decreases |t| - n
  {
    if n < |t| { NeverAstray(me, t, n + 1); }
  }

  ghost predicate Game(x: Execution) {
    && Allowed(x) && |x.prog| == 2 && Player(0, x.prog[0]) && Player(1, x.prog[1])
    && x.init(TURN) == 0 && x.init(COUNT) == 0
  }

  // ---- Order ----

  /** Everything on the turn and the count but the spin loads that saw the other hart's turn. */
  function Effective(): Choice { (h: nat, i: nat, op: Op) => IsEffective(h, op) }

  predicate IsEffective(h: nat, op: Op) { IsMem(op) && op.a <= COUNT && !(op.Load? && op.a == TURN && op.v != h) }

  /** A hart only ever hands the turn away. */
  lemma HandsTurnAway(me: nat, t: Trace, k: nat)
    requires Player(me, t) && k < |t| && Writes(t[k]) && t[k].a == TURN
    ensures t[k].Store? && t[k].v == 1 - me
  {
    NeverAstray(me, t, k);
    NeverAstray(me, t, k + 1);
  }

  /** After the turn is handed away, the load that sees it back is performed later: it can only have read the
      other hart's newer store. */
  lemma TurnComesBack(x: Execution, m: nat, n: nat)
    requires Game(x) && m < |x.gmo| && n < |x.gmo|
    requires x.gmo[m].hart == x.gmo[n].hart && x.gmo[m].i < x.gmo[n].i
    requires Writes(At(x, m)) && At(x, m).a == TURN
    requires At(x, n).Load? && At(x, n).a == TURN && At(x, n).v == x.gmo[n].hart
    ensures m < n
  {
    var h := x.gmo[n].hart;
    HandsTurnAway(h, x.prog[h], x.gmo[m].i);
    assert Visible(x, m, n);
    assert LoadValue(x, n);
    var p: nat :| p < |x.gmo| && ReturnsFrom(x, p, n) && ReadValue(At(x, n)) == WriteValue(At(x, p));
    if x.gmo[p].hart == h { HandsTurnAway(h, x.prog[h], x.gmo[p].i); }
  }

  /** Consecutive effective operations within a round. */
  lemma NeighboursPreserved(me: nat, t: Trace, i: nat, j: nat)
    requires Player(me, t) && i < j < |t| && IsEffective(me, t[i]) && IsEffective(me, t[j])
    requires forall k | i < k < j :: !IsEffective(me, t[k])
    ensures Preserved(t, i, j)
         || (Writes(t[i]) && t[i].a == TURN && t[j].Load? && t[j].a == TURN && t[j].v == me)
  {
    NeverAstray(me, t, i);
    NeverAstray(me, t, i + 1);
    assert PointAt(me, t, i + 1) == Next(me, PointAt(me, t, i), t[i]);
    NeverAstray(me, t, i + 2);
    assert PointAt(me, t, i + 2) == Next(me, PointAt(me, t, i + 1), t[i + 1]);
    match PointAt(me, t, i + 1) {
      case Won(_) => NextAfterFence(me, t, i, j);
      case Stored(_) => NextAfterFence(me, t, i, j);
      case Spinning(_) => SpinsUntil(me, t, i + 1, j);
      case _ =>
    }
  }

  lemma NextAfterFence(me: nat, t: Trace, i: nat, j: nat)
    requires Player(me, t) && i < j < |t| && IsEffective(me, t[i]) && IsEffective(me, t[j])
    requires forall k | i < k < j :: !IsEffective(me, t[k])
    requires i + 2 <= |t| && PointAt(me, t, i + 1) == Next(me, PointAt(me, t, i), t[i]) && PointAt(me, t, i) != Astray
    requires PointAt(me, t, i + 1).Won? || PointAt(me, t, i + 1).Stored?
    ensures Preserved(t, i, j)
  {
    NeverAstray(me, t, i + 2);
    assert t[i + 1].Fence?;
    NeverAstray(me, t, i + 3);
    assert PointAt(me, t, i + 3) == Next(me, PointAt(me, t, i + 2), t[i + 2]);
    assert j == i + 2;
    assert Fenced(t, i, i + 1, j);
  }

  /** Between two rounds there is nothing but spin loads and operations on other words. */
  lemma {:induction false} SpinsUntil(me: nat, t: Trace, i: nat, j: nat)
    requires Player(me, t) && i <= j < |t| && PointAt(me, t, i).Spinning?
    requires forall k | i <= k < j :: !IsEffective(me, t[k])
    requires IsEffective(me, t[j])
    ensures t[j].Load? && t[j].a == TURN
    decreases j - i
  {
    NeverAstray(me, t, i + 1);
    assert PointAt(me, t, i + 1) == Next(me, PointAt(me, t, i), t[i]);
    if i < j {
      assert !IsEffective(me, t[i]);
      SpinsUntil(me, t, i + 1, j);
    }
  }

  function PreviousEffective(me: nat, t: Trace, i: nat, j: nat): (k: nat)
    requires i < j < |t| && IsEffective(me, t[i])
    ensures i <= k < j && IsEffective(me, t[k]) && forall m | k < m < j :: !IsEffective(me, t[m])
  {
    if IsEffective(me, t[j - 1]) then j - 1 else PreviousEffective(me, t, i, j - 1)
  }

  lemma {:induction false} InOrder(x: Execution, m: nat, n: nat)
    requires Game(x) && m < |x.gmo| && n < |x.gmo| && Chosen(x, Effective(), m) && Chosen(x, Effective(), n)
    requires x.gmo[m].hart == x.gmo[n].hart && x.gmo[m].i < x.gmo[n].i
    ensures m < n
    decreases x.gmo[n].i - x.gmo[m].i
  {
    var h, i, j := x.gmo[m].hart, x.gmo[m].i, x.gmo[n].i;
    var k := PreviousEffective(h, x.prog[h], i, j);
    NeighboursPreserved(h, x.prog[h], k, j);
    var p := if k == i then m else Position(x, Event(h, k));
    if Preserved(x.prog[h], k, j) {
      assert Preserved(x.prog[x.gmo[p].hart], x.gmo[p].i, x.gmo[n].i);
    } else {
      TurnComesBack(x, p, n);
    }
    if k != i { InOrder(x, m, p); }
  }

  /** The effective operations of each hart perform in program order. */
  lemma RoundsInOrder(x: Execution)
    requires Game(x)
    ensures InProgramOrder(x, Effective())
  {
    forall m: nat, n: nat | && m < |x.gmo| && n < |x.gmo| && x.gmo[m].hart == x.gmo[n].hart && x.gmo[m].i < x.gmo[n].i
                            && Chosen(x, Effective(), m) && Chosen(x, Effective(), n)
      ensures m < n
    {
      InOrder(x, m, n);
    }
  }

  // ---- The invariant ----

  function Stage(s: Point): Point {
    match s
    case Entered(n) => Won(n)
    case Leaving(n) => Stored(n)
    case _ => s
  }

  lemma {:induction false} SkippedKeepStage(me: nat, t: Trace, d: nat, i: nat)
    requires Player(me, t) && d <= i <= |t| && forall j | d <= j < i :: !IsEffective(me, t[j])
    ensures Stage(PointAt(me, t, i)) == Stage(PointAt(me, t, d))
    decreases i
  {
    if d < i {
      SkippedKeepStage(me, t, d, i - 1);
      NeverAstray(me, t, i);
      assert !IsEffective(me, t[i - 1]);
    }
  }

  ghost function StageOf(x: Execution, h: nat, k: nat): Point
    requires IsOrder(x) && k <= |x.gmo| && h < |x.prog|
  {
    Stage(PointAt(h, x.prog[h], Done(x, Effective(), h, k)))
  }

  function Round(s: Point): nat { if s.Astray? then 0 else s.n }

  /** The count hart s leaves behind when it entered its round with c. */
  predicate InRound(s: Point, c: nat, count: Word) {
    match s
    case Spinning(_) => count == c % 0x1_0000_0000_0000_0000
    case Won(_) => count == c % 0x1_0000_0000_0000_0000
    case Loaded(_, v) => count == c % 0x1_0000_0000_0000_0000 && v == count
    case Stored(_) => count == (c + 1) % 0x1_0000_0000_0000_0000
    case _ => false
  }

  /** Strict alternation: the hart without the turn waits; rounds never drift apart; the count tells the round. */
  predicate Good(s0: Point, s1: Point, turn: Word, count: Word) {
    if turn == 0 then s1.Spinning? && Round(s0) == Round(s1) && InRound(s0, 2 * Round(s0), count)
    else turn == 1 && s0.Spinning? && Round(s0) == Round(s1) + 1 && InRound(s1, 2 * Round(s1) + 1, count)
  }

  lemma GoodStep(me: nat, mine: Point, s: Point, other: Point, turn: Word, count: Word, op: Op)
    requires me < 2 && Stage(s) == mine && Next(me, s, op) != Astray && IsEffective(me, op)
    requires if me == 0 then Good(mine, other, turn, count) else Good(other, mine, turn, count)
    requires Reads(op) ==> ReadValue(op) == (if op.a == TURN then turn else count)
    ensures var next := Stage(Next(me, s, op));
            if me == 0 then Good(next, other, Written(op, TURN, turn), Written(op, COUNT, count))
            else Good(other, next, Written(op, TURN, turn), Written(op, COUNT, count))
  {
    SuccMod(2 * Round(s) + me);
  }

  ghost predicate Invariant(x: Execution, k: nat)
    requires IsOrder(x) && k <= |x.gmo| && |x.prog| == 2
  {
    Good(StageOf(x, 0, k), StageOf(x, 1, k), Memory(x, k, TURN), Memory(x, k, COUNT))
  }

  lemma StageBefore(x: Execution, k: nat)
    requires Game(x) && k < |x.gmo| && Chosen(x, Effective(), k)
    ensures Stage(PointAt(x.gmo[k].hart, x.prog[x.gmo[k].hart], x.gmo[k].i)) == StageOf(x, x.gmo[k].hart, k)
  {
    var h, i, c := x.gmo[k].hart, x.gmo[k].i, Effective();
    RoundsInOrder(x);
    DoneBounds(x, c, k, k);
    var d := Done(x, c, h, k);
    forall j | d <= j < i ensures !c(h, j, x.prog[h][j]) { NothingSkipped(x, c, k, j); }
    SkippedKeepStage(h, x.prog[h], d, i);
  }

  lemma StageAfter(x: Execution, k: nat)
    requires Game(x) && k < |x.gmo| && Chosen(x, Effective(), k)
    ensures var s := Next(x.gmo[k].hart, PointAt(x.gmo[k].hart, x.prog[x.gmo[k].hart], x.gmo[k].i), At(x, k));
            s != Astray && StageOf(x, x.gmo[k].hart, k + 1) == Stage(s)
  {
    NeverAstray(x.gmo[k].hart, x.prog[x.gmo[k].hart], x.gmo[k].i + 1);
  }

  lemma ReadsMemory(x: Execution, k: nat)
    requires Game(x) && k < |x.gmo| && Chosen(x, Effective(), k) && Reads(At(x, k))
    ensures ReadValue(At(x, k)) == Memory(x, k, At(x, k).a)
  {
    RoundsInOrder(x);
    ChosenLoadReadsMemory(x, Effective(), k);
  }

  lemma UsesTurnAndCount(me: nat, s: Point, op: Op)
    requires IsEffective(me, op) && Next(me, s, op) != Astray
    ensures op.a == TURN || op.a == COUNT
  {
  }

  lemma OthersStand(x: Execution, k: nat, g: nat)
    requires IsOrder(x) && k < |x.gmo| && g < |x.prog|
    requires g != x.gmo[k].hart || !Chosen(x, Effective(), k)
    ensures StageOf(x, g, k + 1) == StageOf(x, g, k)
  {
  }

  lemma {:induction false} InvariantHolds(x: Execution, k: nat)
    requires Game(x) && k <= |x.gmo|
    ensures Invariant(x, k)
    decreases k
  {
    if k > 0 {
      InvariantHolds(x, k - 1);
      InvariantStep(x, k - 1);
    }
  }

  lemma InvariantStep(x: Execution, k: nat)
    requires Game(x) && k < |x.gmo| && Invariant(x, k)
    ensures Invariant(x, k + 1)
  {
    var h, op := x.gmo[k].hart, At(x, k);
    if Chosen(x, Effective(), k) {
      var s := PointAt(h, x.prog[h], x.gmo[k].i);
      StageBefore(x, k);
      if Reads(op) { ReadsMemory(x, k); }
      StageAfter(x, k);
      UsesTurnAndCount(h, s, op);
      OthersStand(x, k, 1 - h);
      GoodStep(h, StageOf(x, h, k), s, StageOf(x, 1 - h, k), Memory(x, k, TURN), Memory(x, k, COUNT), op);
    } else {
      OthersStand(x, k, 0);
      OthersStand(x, k, 1);
    }
  }

  // ---- The theorems ----

  /** At every moment the harts alternate strictly: whoever is inside a round, the other one is waiting. */
  lemma Alternates(x: Execution, k: nat)
    requires Game(x) && k <= |x.gmo|
    ensures StageOf(x, 0, k).Spinning? || StageOf(x, 1, k).Spinning?
    ensures Round(StageOf(x, 0, k)) - Round(StageOf(x, 1, k)) in {0, 1}
  {
    InvariantHolds(x, k);
  }

  /** In round n hart h reads 2n + h: the other hart's latest count, with no increment lost. For core 0 after N
      rounds this is the final check, count = 2N. */
  lemma RoundReads(x: Execution, k: nat)
    requires Game(x) && k < |x.gmo| && At(x, k).Load? && At(x, k).a == COUNT
    ensures var h := x.gmo[k].hart;
            At(x, k).v == (2 * Round(PointAt(h, x.prog[h], x.gmo[k].i)) + h) % WORD_SIZE
  {
    var h := x.gmo[k].hart;
    InvariantHolds(x, k);
    assert Chosen(x, Effective(), k);
    StageBefore(x, k);
    StageAfter(x, k);
    ReadsMemory(x, k);
  }

  // ---- From the clearing of the turn and the count on ----

  /** Core 0 clears fields first; setting those stores aside, both cores are players, and nobody else uses the other
      cleared fields. */
  ghost predicate Cleans(x: Execution, p: Prologue) {
    && Allowed(x) && |x.prog| == 2 && Within(x, p) && COUNT < p.spare && SetsUp(x.prog[0], p, MAILBOX)
    && Player(0, MovedTrace(p, 0, x.prog[0])) && Player(1, x.prog[1])
    && forall n: nat {:trigger At(x, n)} |
         n < |x.gmo| && !Clears(x, p, n) && At(x, n).a > COUNT :: !Cleared(x, p, At(x, n).a)
  }

  lemma OneIsNotMoved(p: Prologue, t: Trace)
    ensures MovedTrace(p, 1, t) == t
  {
  }

  /** A hart's store of the turn or the count is behind a load that saw the turn its own, with a fence between. */
  lemma StoreBehindTurn(me: nat, t: Trace, i: nat) returns (q: nat)
    requires Player(me, t) && i < |t| && Writes(t[i]) && t[i].a <= COUNT
    ensures q < i && t[q].Load? && t[q].a == TURN && t[q].v == me && Preserved(t, q, i)
  {
    NeverAstray(me, t, i);
    NeverAstray(me, t, i + 1);
    if PointAt(me, t, i).Loaded? {
      q := TurnBeforeLoaded(me, t, i);
      assert Fenced(t, q, q + 1, i);
    } else {
      assert PointAt(me, t, i) == Next(me, PointAt(me, t, i - 1), t[i - 1]);
      assert PointAt(me, t, i - 1) == Next(me, PointAt(me, t, i - 2), t[i - 2]);
      q := TurnBeforeLoaded(me, t, i - 2);
      assert Fenced(t, q, q + 1, i);
    }
  }

  lemma TurnBeforeLoaded(me: nat, t: Trace, i: nat) returns (q: nat)
    requires Player(me, t) && i <= |t| && PointAt(me, t, i).Loaded?
    ensures q + 2 < i && t[q].Load? && t[q].a == TURN && t[q].v == me && t[q + 1] == Fence(true, false, true, true)
  {
    assert PointAt(me, t, i) == Next(me, PointAt(me, t, i - 1), t[i - 1]);
    assert PointAt(me, t, i - 1) == Next(me, PointAt(me, t, i - 2), t[i - 2]);
    assert PointAt(me, t, i - 2) == Next(me, PointAt(me, t, i - 3), t[i - 3]);
    q := i - 3;
  }

  lemma TurnBehindFence(me: nat, t: Trace, d: nat)
    requires Player(me, t) && d < |t| && Writes(t[d]) && t[d].a == TURN
    ensures d > 0 && t[d - 1] == Fence(true, true, false, true)
  {
    NeverAstray(me, t, d);
    NeverAstray(me, t, d + 1);
    assert PointAt(me, t, d) == Next(me, PointAt(me, t, d - 1), t[d - 1]);
  }

  /** Core 0 hands the turn away behind `fence rw,w`, which orders its set-up. */
  lemma TurnBehindSetUp(x: Execution, p: Prologue, s: nat, k: nat)
    requires Cleans(x, p) && s < |x.gmo| && k < |x.gmo| && Clears(x, p, s) && !Clears(x, p, k)
    requires x.gmo[k].hart == 0 && Writes(At(x, k)) && At(x, k).a == TURN
    ensures s < k
  {
    var t, d := MovedTrace(p, 0, x.prog[0]), x.gmo[k].i;
    assert t[d] == x.prog[0][d];
    TurnBehindFence(0, t, d);
    assert x.prog[0][d - 1] == t[d - 1];
    assert x.gmo[s].i < d - 1;
    assert Fenced(x.prog[0], x.gmo[s].i, d - 1, d);
    assert Preserved(x.prog[x.gmo[s].hart], x.gmo[s].i, x.gmo[k].i);
  }

  /** From static zero, core 1 stores only once the turn has come, and so after the set-up. */
  lemma CoreOneAfterSetUp(x: Execution, p: Prologue, s: nat, n: nat)
    requires Cleans(x, p) && x.init(TURN) == 0 && s < |x.gmo| && n < |x.gmo| && Clears(x, p, s)
    requires x.gmo[n].hart == 1 && Writes(At(x, n)) && At(x, n).a <= COUNT
    ensures s < n
  {
    var t, i := x.prog[1], x.gmo[n].i;
    var j := StoreBehindTurn(1, t, i);
    var q := Position(x, Event(1, j));
    assert Preserved(x.prog[x.gmo[q].hart], x.gmo[q].i, x.gmo[n].i);
    var k := StoreReturned(x, q);
    if x.gmo[k].hart == 1 {
      HandsTurnAway(1, t, x.gmo[k].i);
    }
    assert x.gmo[k].hart == 0;
    TurnBehindSetUp(x, p, s, k);
  }

  lemma StaticClearedFirst(x: Execution, p: Prologue)
    requires Cleans(x, p) && x.init(TURN) == 0
    ensures ClearedFirst(x, p)
  {
    forall s: nat, n: nat | s < |x.gmo| && n < |x.gmo| && Clears(x, p, s) && !Clears(x, p, n)
        && Writes(At(x, n)) && At(x, n).a == At(x, s).a
      ensures s < n
    {
      ClearedBy(x, p, n, s);
      if x.gmo[n].hart == 0 {
        OwnStoreAfterClear(x, p, MAILBOX, s, n);
      } else {
        CoreOneAfterSetUp(x, p, s, n);
      }
    }
  }

  /** The test as it stands, with no fence round the post: from static zero every round reads what it should, though
      loads may perform before core 0's clearing stores. */
  lemma TestPassesAsItStands(x: Execution, p: Prologue, k: nat)
    requires Cleans(x, p) && x.init(TURN) == 0 && x.init(COUNT) == 0
    requires k < |x.gmo| && At(x, k).Load? && At(x, k).a == COUNT
    ensures Game(FromCleared(x, p))
    ensures var h := x.gmo[k].hart;
            At(x, k).v == (2 * Round(PointAt(h, MovedTrace(p, h, x.prog[h]), x.gmo[k].i)) + h) % WORD_SIZE
  {
    StaticClearedFirst(x, p);
    assert LoadsCleared(x, p);
    GameFromCleared(x, p, k);
  }

  lemma GameFromCleared(x: Execution, p: Prologue, k: nat)
    requires Cleans(x, p) && ClearedFirst(x, p) && LoadsCleared(x, p)
    requires Cleared(x, p, TURN) || x.init(TURN) == 0
    requires Cleared(x, p, COUNT) || x.init(COUNT) == 0
    requires k < |x.gmo| && At(x, k).Load? && At(x, k).a == COUNT
    ensures Game(FromCleared(x, p))
    ensures var h := x.gmo[k].hart;
            At(x, k).v == (2 * Round(PointAt(h, MovedTrace(p, h, x.prog[h]), x.gmo[k].i)) + h) % WORD_SIZE
  {
    var y := FromCleared(x, p);
    FromClearedAllowed(x, p);
    SameEvents(x, p);
    OneIsNotMoved(p, x.prog[1]);
    assert y.prog[0] == MovedTrace(p, 0, x.prog[0]) && y.prog[1] == MovedTrace(p, 1, x.prog[1]);
    RoundReads(y, k);
  }

  /** And from any memory, if the post has a fence w,w and the job a fence r,rw. */
  lemma RoundReadsAfterClearing(x: Execution, p: Prologue, k: nat)
    requires Cleans(x, p) && Posts(x, p, MAILBOX) && Cleared(x, p, TURN) && Cleared(x, p, COUNT)
    requires forall i: nat {:trigger BehindPost(x.prog[1], i, MAILBOX)} |
               i < |x.prog[1]| && IsMem(x.prog[1][i]) && x.prog[1][i].a != MAILBOX :: BehindPost(x.prog[1], i, MAILBOX)
    requires k < |x.gmo| && At(x, k).Load? && At(x, k).a == COUNT
    ensures Game(FromCleared(x, p))
    ensures var h := x.gmo[k].hart;
            At(x, k).v == (2 * Round(PointAt(h, MovedTrace(p, h, x.prog[h]), x.gmo[k].i)) + h) % WORD_SIZE
  {
    FencedJobs(x, p, MAILBOX);
    PostOrdersClearing(x, p, MAILBOX);
    GameFromCleared(x, p, k);
  }
}
