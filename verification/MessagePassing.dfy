/** The fence producer/consumer of the dual-core test (P4.1) under RVWMO, from the clearing of the shared fields to
    the verdict: core 0 sets them up, posts core 1's job through the mailbox word, and then one core publishes a
    payload behind a flag and the other a verdict behind a done flag. Core 0 is the producer in P4.1A, core 1 in
    P4.1B. */
module MessagePassing {
  import opened Words
  import opened Rvwmo
  import opened Handshake

  const PAYLOAD: Loc := 0
  const EXPECTED: Loc := 1
  const FLAG: Loc := 2
  const DONE: Loc := 3
  const VERDICT: Loc := 4  // fence_ok
  const MAILBOX: Loc := 5  // g_smode_target

  /** Which core produces, the payload, and whether there is a fence w,w before the post and a fence r,rw after the
      job is taken. The test has neither. */
  datatype Setup = Setup(producer: nat, expected: Word, announced: bool, awaited: bool)

  datatype Point =
    | Z0 | Z1(w: Word) | Z2 | Z3                                        // core 0 sets up and posts
    | J0 | J1 | J2                                                      // core 1 takes the job
    | P0 | P1(e: Word) | P2 | P3 | P4 | P5 | P6 | P7                    // producer
    | C0 | C1 | C2 | C3(p: Word) | C4(p: Word, e: Word) | C5 | C6 | C7  // consumer
    | Astray

  function Role(c: Setup, h: nat): Point { if h == c.producer then P0 else C0 }

  /** `g_p4 = 0` and `fence_expected = ...`, in any order and any number of stores. */
  function SetUp(s: Point, op: Op): Point {
    if op.Store? && op.a == EXPECTED then Z1(op.v)
    else if op.Store? && op.v == 0 && (op.a == PAYLOAD || op.a == FLAG || op.a == DONE || op.a == VERDICT) then s
    else Astray
  }

  /** Core 0 up to its role: set up; the fence if there is one; g_smode_target = func; fence w,w. */
  function Post(c: Setup, h: nat, s: Point, op: Op): Point {
    match s
    case Z0 => SetUp(s, op)
    case Z1(w) => if op == Optional(c.announced, FENCE_W_W) && w == c.expected then Z2 else SetUp(s, op)
    case Z2 => if op.Store? && op.a == MAILBOX && op.v != 0 then Z3 else Astray
    case Z3 => if op == FENCE_W_W then Role(c, h) else Astray
    case _ => Astray
  }

  /** Core 1 up to its role: while (g_smode_target == 0); g_smode_target(); the fence if there is one. */
  function Take(c: Setup, h: nat, s: Point, op: Op): Point {
    match s
    case J0 => if op.Load? && op.a == MAILBOX then (if op.v == 0 then J0 else J1) else Astray
    case J1 => if op.Load? && op.a == MAILBOX && op.v != 0 then J2 else Astray
    case J2 => if op == Optional(c.awaited, FENCE_R_RW) then Role(c, h) else Astray
    case _ => Astray
  }

  /** fence_payload = fence_expected; fence w,w; fence_flag = 1; spin_wait(&fence_done, 1); fence r,rw;
      read fence_ok. */
  function Produce(s: Point, op: Op): Point {
    match s
    case P0 => if op.Load? && op.a == EXPECTED then P1(op.v) else Astray
    case P1(e) => if op == Store(PAYLOAD, e) then P2 else Astray
    case P2 => if op == FENCE_W_W then P3 else Astray
    case P3 => if op == Store(FLAG, 1) then P4 else Astray
    case P4 => if op.Load? && op.a == DONE then (if op.v == 1 then P5 else P4) else Astray
    case P5 => if op == FENCE_R_RW then P6 else Astray
    case P6 => if op.Load? && op.a == VERDICT then P7 else Astray
    case _ => Astray
  }

  /** while (fence_flag == 0); fence r,rw; fence_ok = (fence_payload == fence_expected); fence w,w; fence_done = 1. */
  function Consume(s: Point, op: Op): Point {
    match s
    case C0 => if op.Load? && op.a == FLAG then (if op.v == 0 then C0 else C1) else Astray
    case C1 => if op == FENCE_R_RW then C2 else Astray
    case C2 => if op.Load? && op.a == PAYLOAD then C3(op.v) else Astray
    case C3(p) => if op.Load? && op.a == EXPECTED then C4(p, op.v) else Astray
    case C4(p, e) => if op == Store(VERDICT, if p == e then 1 else 0) then C5 else Astray
    case C5 => if op == FENCE_W_W then C6 else Astray
    case C6 => if op == Store(DONE, 1) then C7 else Astray
    case _ => Astray
  }

  function Next(c: Setup, h: nat, s: Point, op: Op): Point {
    if s.Z0? || s.Z1? || s.Z2? || s.Z3? then Post(c, h, s, op)
    else if s.J0? || s.J1? || s.J2? then Take(c, h, s, op)
    else if Producing(s) then Produce(s, op)
    else Consume(s, op)
  }

  function StartOf(h: nat): Point { if h == 0 then Z0 else J0 }

  /** The points a hart passes on its trace, from its start. */
  function Points(c: Setup, h: nat, t: Trace): (ps: seq<Point>)
    ensures |ps| == |t| + 1
  {
    if t == [] then [StartOf(h)]
    else
      var ps := Points(c, h, t[..|t| - 1]);
      ps + [Next(c, h, ps[|t| - 1], t[|t| - 1])]
  }

  function PointAt(c: Setup, h: nat, t: Trace, n: nat): Point
    requires n <= |t|
  {
    Points(c, h, t)[n]
  }

  lemma {:induction false} Stepping(c: Setup, h: nat, t: Trace, i: nat)
    requires i < |t|
    ensures PointAt(c, h, t, 0) == StartOf(h)
    ensures PointAt(c, h, t, i + 1) == Next(c, h, PointAt(c, h, t, i), t[i])
    decreases |t|
  {
    if i < |t| - 1 {
      Stepping(c, h, t[..|t| - 1], i);
    } else if i > 0 {
      Stepping(c, h, t[..|t| - 1], i - 1);
    }
  }

  lemma StartPoint(c: Setup, h: nat, t: Trace)
    ensures PointAt(c, h, t, 0) == StartOf(h)
  {
    if t != [] { Stepping(c, h, t, 0); }
  }

  /** Hart h runs its side, stopped anywhere. */
  predicate Follows(c: Setup, h: nat, t: Trace) { PointAt(c, h, t, |t|) != Astray }

  /** The points in program order: no side ever goes back. */
  function Rank(s: Point): int {
    match s
    case Z0 => 0 case Z1(_) => 1 case Z2 => 2 case Z3 => 3
    case J0 => 0 case J1 => 1 case J2 => 2
    case P0 => 10 case P1(_) => 11 case P2 => 12 case P3 => 13 case P4 => 14 case P5 => 15 case P6 => 16 case P7 => 17
    case C0 => 10 case C1 => 11 case C2 => 12 case C3(_) => 13 case C4(_, _) => 14 case C5 => 15 case C6 => 16
    case C7 => 17
    case Astray => 100
  }

  predicate Producing(s: Point) { s.P0? || s.P1? || s.P2? || s.P3? || s.P4? || s.P5? || s.P6? || s.P7? }
  predicate Consuming(s: Point) { s.C0? || s.C1? || s.C2? || s.C3? || s.C4? || s.C5? || s.C6? || s.C7? }

  /** The points of hart h. */
  predicate Belongs(c: Setup, h: nat, s: Point) {
    || (if h == 0 then s.Z0? || s.Z1? || s.Z2? || s.Z3? else s.J0? || s.J1? || s.J2?)
    || (if h == c.producer then Producing(s) else Consuming(s))
  }

  /** In every prefix the hart is on its own side. */
  lemma {:induction false} StaysOnSide(c: Setup, h: nat, t: Trace, n: nat)
    requires Follows(c, h, t) && n <= |t|
    ensures Belongs(c, h, PointAt(c, h, t, n))
    decreases n
  {
    if n == 0 {
      StartPoint(c, h, t);
    } else {
      NeverAstray(c, h, t, n);
      StaysOnSide(c, h, t, n - 1);
      Stepping(c, h, t, n - 1);
    }
  }

  lemma {:induction false} NeverAstray(c: Setup, h: nat, t: Trace, n: nat)
    requires Follows(c, h, t) && n <= |t|
    ensures PointAt(c, h, t, n) != Astray
    decreases |t| - n
  {
    if n < |t| {
      NeverAstray(c, h, t, n + 1);
      Stepping(c, h, t, n);
    }
  }

  lemma {:induction false} RankGrows(c: Setup, h: nat, t: Trace, i: nat, j: nat)
    requires Follows(c, h, t) && i <= j <= |t|
    ensures Rank(PointAt(c, h, t, i)) <= Rank(PointAt(c, h, t, j))
    decreases j
  {
    if i < j {
      RankGrows(c, h, t, i, j - 1);
      Stepping(c, h, t, j - 1);
      NextRises(c, h, PointAt(c, h, t, j - 1), t[j - 1]);
    }
  }

  lemma NextRises(c: Setup, h: nat, s: Point, op: Op)
    ensures Rank(s) <= Rank(Next(c, h, s, op))
  {
  }

  /** An operation at a lower rank comes first. */
  lemma RankOrders(c: Setup, h: nat, t: Trace, i: nat, j: nat)
    requires Follows(c, h, t) && i <= |t| && j <= |t| && Rank(PointAt(c, h, t, i)) < Rank(PointAt(c, h, t, j))
    ensures i < j
  {
    if j <= i { RankGrows(c, h, t, j, i); }
  }

  /** What operation i does at its point. */
  lemma OpAt(c: Setup, h: nat, t: Trace, i: nat)
    requires Follows(c, h, t) && i < |t|
    ensures Belongs(c, h, PointAt(c, h, t, i))
    ensures Next(c, h, PointAt(c, h, t, i), t[i]) == PointAt(c, h, t, i + 1) != Astray
  {
    StaysOnSide(c, h, t, i);
    NeverAstray(c, h, t, i + 1);
    Stepping(c, h, t, i);
  }

  /** The step into a point that is entered in one way only. */
  predicate Entry(c: Setup, from: Point, op: Op, to: Point) {
    match to
    case Z2 => from == Z1(c.expected) && op == Optional(c.announced, FENCE_W_W)
    case J1 => op.Load? && op.a == MAILBOX && op.v != 0
    case J2 => from == J1 && op.Load? && op.a == MAILBOX && op.v != 0
    case P1(e) => from == P0 && op == Load(EXPECTED, e)
    case P2 => from.P1? && op == Store(PAYLOAD, from.e)
    case P3 => from == P2 && op == FENCE_W_W
    case P5 => from == P4 && op == Load(DONE, 1)
    case P6 => from == P5 && op == FENCE_R_RW
    case C1 => from == C0 && op.Load? && op.a == FLAG && op.v != 0
    case C2 => from == C1 && op == FENCE_R_RW
    case C3(p) => from == C2 && op == Load(PAYLOAD, p)
    case C4(p, e) => from == C3(p) && op == Load(EXPECTED, e)
    case C5 => from.C4? && op.Store? && op.a == VERDICT
    case C6 => from == C5 && op == FENCE_W_W
    case _ => true
  }

  lemma NextEnters(c: Setup, h: nat, s: Point, op: Op)
    ensures Entry(c, s, op, Next(c, h, s, op))
  {
  }

  lemma Entered(c: Setup, h: nat, t: Trace, i: nat)
    requires 0 < i <= |t|
    ensures Entry(c, PointAt(c, h, t, i - 1), t[i - 1], PointAt(c, h, t, i))
  {
    Stepping(c, h, t, i - 1);
    NextEnters(c, h, PointAt(c, h, t, i - 1), t[i - 1]);
  }

  /** No side starts past its first point. */
  lemma NotAtStart(c: Setup, h: nat, t: Trace, i: nat)
    requires i <= |t| && Rank(PointAt(c, h, t, i)) > 0
    ensures i > 0
  {
    StartPoint(c, h, t);
  }

  /** The two steps into a point. */
  lemma EnteredTwice(c: Setup, h: nat, t: Trace, i: nat)
    requires i <= |t| && Follows(c, h, t)
    requires var s := PointAt(c, h, t, i); s.P3? || s.P6? || s.C2? || s.C4? || s.C6?
    ensures i >= 2 && Entry(c, PointAt(c, h, t, i - 1), t[i - 1], PointAt(c, h, t, i))
    ensures Entry(c, PointAt(c, h, t, i - 2), t[i - 2], PointAt(c, h, t, i - 1))
  {
    NotAtStart(c, h, t, i);
    Entered(c, h, t, i);
    NotAtStart(c, h, t, i - 1);
    Entered(c, h, t, i - 1);
  }

  /** A role of a core starts from the points that take or post the job. */
  predicate Begins(c: Setup, h: nat, from: Point, op: Op, to: Point) {
    Rank(to) >= 10 && Rank(from) < 10 ==>
      if h == 0 then from == Z3 else from == J2 && op == Optional(c.awaited, FENCE_R_RW)
  }

  lemma NextBegins(c: Setup, h: nat, s: Point, op: Op)
    requires Belongs(c, h, s) && Next(c, h, s, op) != Astray
    ensures Begins(c, h, s, op, Next(c, h, s, op))
  {
  }

  // ---- Sessions ----

  ghost function PointOf(x: Execution, c: Setup, k: nat): Point
    requires IsOrder(x) && k < |x.gmo|
  {
    PointAt(c, x.gmo[k].hart, x.prog[x.gmo[k].hart], x.gmo[k].i)
  }

  /** The field is zero at the start, or core 0's set-up clears it. */
  ghost predicate StartsClear(x: Execution, a: Loc) {
    x.init(a) == 0 || exists i: nat :: |x.prog| > 0 && i < |x.prog[0]| && x.prog[0][i] == Store(a, 0)
  }

  /** Both cores, each stopped anywhere. In P4.1A the flag is zero static data; core 0 clears what it waits for. */
  ghost predicate Session(x: Execution, c: Setup) {
    && Allowed(x) && |x.prog| == 2 && c.producer < 2 && x.init(MAILBOX) == 0
    && (forall h: nat {:trigger x.prog[h]} | h < 2 :: Follows(c, h, x.prog[h]))
    && (if c.producer == 0 then x.init(FLAG) == 0 && StartsClear(x, DONE) else StartsClear(x, FLAG))
  }

  /** Who stores what. */
  lemma StoreOf(x: Execution, c: Setup, k: nat)
    requires Session(x, c) && k < |x.gmo| && Writes(At(x, k))
    ensures var h, s, op := x.gmo[k].hart, PointOf(x, c, k), At(x, k);
      && h < 2 && op.Store?
      && (Rank(s) <= 1 ==> h == 0 && op.a != MAILBOX && (op.a != EXPECTED ==> op.v == 0))
      && (op.a == EXPECTED ==> Rank(s) <= 1)
      && (op.a == PAYLOAD && Rank(s) > 1 ==> h == c.producer && s == P1(op.v))
      && (op.a == FLAG && Rank(s) > 1 ==> h == c.producer && s == P3 && op.v == 1)
      && (op.a == DONE && Rank(s) > 1 ==> h != c.producer && s == C6 && op.v == 1)
      && (op.a == VERDICT && Rank(s) > 1 ==> h != c.producer && s.C4? && op.v == if s.p == s.e then 1 else 0)
      && (op.a == MAILBOX ==> h == 0 && s == Z2)
  {
    OpAt(c, x.gmo[k].hart, x.prog[x.gmo[k].hart], x.gmo[k].i);
  }

  // ---- The three handshakes ----

  /** Operation d of a side, entered through fence w,w: whatever the side stored at a lower rank is behind it. */
  lemma BehindFence(c: Setup, h: nat, t: Trace, i: nat, d: nat)
    requires Follows(c, h, t) && i < |t| && 0 < d < |t| && t[d - 1] == FENCE_W_W
    requires Rank(PointAt(c, h, t, i)) < Rank(PointAt(c, h, t, d - 1))
    ensures BehindStores(t, i, d)
  {
    RankOrders(c, h, t, i, d - 1);
    assert i < d - 1 < d;
  }

  /** The set-up is announced by the post, if there is a fence. */
  lemma SetUpAnnounced(x: Execution, c: Setup, s: nat, v: Word)
    requires Session(x, c) && c.announced && s < |x.gmo| && Writes(At(x, s)) && Rank(PointOf(x, c, s)) <= 1
    ensures x.gmo[s].hart == 0 && Announces(x.prog, 0, x.gmo[s].i, MAILBOX, v)
  {
    StoreOf(x, c, s);
    forall g: nat, d: nat {:trigger Raises(x.prog[g], d, MAILBOX, v)} | g < |x.prog| && Raises(x.prog[g], d, MAILBOX, v)
      ensures g == 0 && BehindStores(x.prog[0], x.gmo[s].i, d)
    {
      StoreOf(x, c, Position(x, Event(g, d)));
      PostBehindSetUp(c, x.prog[0], x.gmo[s].i, d);
    }
  }

  lemma PostBehindSetUp(c: Setup, t: Trace, i: nat, d: nat)
    requires Follows(c, 0, t) && c.announced && i < |t| && d < |t|
    requires PointAt(c, 0, t, d) == Z2 && Rank(PointAt(c, 0, t, i)) <= 1 && Writes(t[i])
    ensures BehindStores(t, i, d)
  {
    RankOrders(c, 0, t, i, d);
    Entered(c, 0, t, d);
    assert t[d - 1] == FENCE_W_W;
    assert i < d - 1 < d;
  }

  /** A role of core 1 is behind a load that saw the post, and behind the fence if there is one. */
  lemma {:induction false} PostTaken(c: Setup, t: Trace, i: nat) returns (a: nat)
    requires Follows(c, 1, t) && i <= |t| && Rank(PointAt(c, 1, t, i)) >= 10
    ensures a + 1 < i && t[a].Load? && t[a].a == MAILBOX && t[a].v != 0
    ensures t[a + 1] == Optional(c.awaited, FENCE_R_RW)
    decreases i
  {
    NotAtStart(c, 1, t, i);
    if Rank(PointAt(c, 1, t, i - 1)) >= 10 {
      a := PostTaken(c, t, i - 1);
    } else {
      OpAt(c, 1, t, i - 1);
      NextBegins(c, 1, PointAt(c, 1, t, i - 1), t[i - 1]);
      NotAtStart(c, 1, t, i - 1);
      Entered(c, 1, t, i - 1);
      a := i - 2;
    }
  }

  /** With both fences the set-up performs before everything the job does. */
  lemma SetUpBeforeJob(x: Execution, c: Setup, s: nat, n: nat)
    requires Session(x, c) && c.announced && c.awaited
    requires s < |x.gmo| && Writes(At(x, s)) && Rank(PointOf(x, c, s)) <= 1
    requires n < |x.gmo| && x.gmo[n].hart == 1 && Rank(PointOf(x, c, n)) >= 10
    ensures s < n
  {
    var a := PostTaken(c, x.prog[1], x.gmo[n].i);
    var m := Position(x, Event(1, a));
    SetUpAnnounced(x, c, s, At(x, m).v);
    assert BehindLoads(x.prog[1], a, x.gmo[n].i);
    AnnouncedIsBefore(x, s, m, n);
  }

  /** What the producer stored before its fence is announced by the flag. */
  lemma SentAnnounced(x: Execution, c: Setup, s: nat, v: Word)
    requires Session(x, c) && s < |x.gmo| && Writes(At(x, s)) && v != 0
    requires x.gmo[s].hart == c.producer && Rank(PointOf(x, c, s)) <= 11
    ensures Announces(x.prog, c.producer, x.gmo[s].i, FLAG, v)
  {
    var h := c.producer;
    forall g: nat, d: nat {:trigger Raises(x.prog[g], d, FLAG, v)} | g < |x.prog| && Raises(x.prog[g], d, FLAG, v)
      ensures g == h && BehindStores(x.prog[h], x.gmo[s].i, d)
    {
      StoreOf(x, c, Position(x, Event(g, d)));
      EnteredTwice(c, h, x.prog[h], d);
      BehindFence(c, h, x.prog[h], x.gmo[s].i, d);
    }
  }

  /** Past its wait, the consumer is behind the load that saw the flag and fence r,rw. */
  lemma {:induction false} FlagTaken(c: Setup, h: nat, t: Trace, i: nat) returns (a: nat)
    requires Follows(c, h, t) && i <= |t| && h != c.producer && Rank(PointAt(c, h, t, i)) >= 12
    ensures a + 1 < i && t[a].Load? && t[a].a == FLAG && t[a].v != 0 && t[a + 1] == FENCE_R_RW
    ensures PointAt(c, h, t, a) == C0
    decreases i
  {
    NotAtStart(c, h, t, i);
    if Rank(PointAt(c, h, t, i - 1)) >= 12 {
      a := FlagTaken(c, h, t, i - 1);
    } else {
      OpAt(c, h, t, i - 1);
      ConsumerTakes(c, h, PointAt(c, h, t, i - 1), t[i - 1]);
      EnteredTwice(c, h, t, i);
      a := i - 2;
    }
  }

  lemma ConsumerTakes(c: Setup, h: nat, s: Point, op: Op)
    requires h != c.producer && Belongs(c, h, s) && Next(c, h, s, op) != Astray
    ensures Rank(Next(c, h, s, op)) >= 12 && Rank(s) < 12 ==> Next(c, h, s, op) == C2
  {
  }

  /** A flag seen raised by whoever cleared it first was raised by a store. */
  lemma ClearedSeen(x: Execution, c: Setup, m: nat)
    requires Session(x, c) && m < |x.gmo| && At(x, m).Load? && At(x, m).v != 0
    requires || x.init(At(x, m).a) == 0
             || (x.gmo[m].hart == 0 && StartsClear(x, At(x, m).a) && Rank(PointOf(x, c, m)) >= 10)
    requires At(x, m).a == FLAG || At(x, m).a == DONE
    ensures SawStore(x, m)
  {
    if x.init(At(x, m).a) != 0 {
      var i: nat :| i < |x.prog[0]| && x.prog[0][i] == Store(At(x, m).a, 0);
      var z := Position(x, Event(0, i));
      StoreOf(x, c, z);
      RankOrders(c, 0, x.prog[0], i, x.gmo[m].i);
      assert Visible(x, z, m);
    }
  }

  /** What the producer stored before its fence performs before whatever the consumer does past its wait. */
  lemma SentBeforeReceived(x: Execution, c: Setup, s: nat, n: nat)
    requires Session(x, c) && s < |x.gmo| && n < |x.gmo| && Writes(At(x, s))
    requires x.gmo[s].hart == c.producer && Rank(PointOf(x, c, s)) <= 11
    requires x.gmo[n].hart != c.producer && Rank(PointOf(x, c, n)) >= 12
    ensures s < n
  {
    var h := x.gmo[n].hart;
    var a := FlagTaken(c, h, x.prog[h], x.gmo[n].i);
    var m := Position(x, Event(h, a));
    ClearedSeen(x, c, m);
    SentAnnounced(x, c, s, At(x, m).v);
    assert BehindLoads(x.prog[h], a, x.gmo[n].i);
    AnnouncedIsBefore(x, s, m, n);
  }

  /** The flag the consumer saw: the producer's payload store, two operations before it. */
  lemma PayloadSent(x: Execution, c: Setup, n: nat) returns (s: nat)
    requires Session(x, c) && n < |x.gmo| && x.gmo[n].hart != c.producer && Rank(PointOf(x, c, n)) >= 12
    ensures s < |x.gmo| && x.gmo[s].hart == c.producer && Writes(At(x, s)) && At(x, s).a == PAYLOAD
    ensures PointOf(x, c, s).P1?
  {
    var h := x.gmo[n].hart;
    var a := FlagTaken(c, h, x.prog[h], x.gmo[n].i);
    var m := Position(x, Event(h, a));
    ClearedSeen(x, c, m);
    var k := StoreReturned(x, m);
    StoreOf(x, c, k);
    s := PayloadBeforeFlag(x, c, k);
  }

  lemma PayloadBeforeFlag(x: Execution, c: Setup, k: nat) returns (s: nat)
    requires Session(x, c) && k < |x.gmo| && x.gmo[k].hart == c.producer && PointOf(x, c, k) == P3
    ensures s < |x.gmo| && x.gmo[s].hart == c.producer && Writes(At(x, s)) && At(x, s).a == PAYLOAD
    ensures PointOf(x, c, s).P1?
  {
    var h, i := x.gmo[k].hart, x.gmo[k].i;
    EnteredTwice(c, h, x.prog[h], i);
    s := Position(x, Event(h, i - 2));
  }

  // ---- The expected value ----

  /** The last of the first i operations that stores the expected value; -1 when there is none. */
  function LastExpected(t: Trace, i: nat): (l: int)
    requires i <= |t|
    ensures -1 <= l < i
    ensures l >= 0 ==> Writes(t[l]) && t[l].a == EXPECTED
    ensures forall k: nat | k < i && Writes(t[k]) && t[k].a == EXPECTED :: k <= l
  {
    if i == 0 then -1
    else if Writes(t[i - 1]) && t[i - 1].a == EXPECTED then i - 1
    else LastExpected(t, i - 1)
  }

  /** Once core 0 has set up, that store is there, in the set-up, and writes the session's value. */
  lemma {:induction false} ExpectedSetUp(c: Setup, t: Trace, i: nat)
    requires Follows(c, 0, t) && i <= |t| && Rank(PointAt(c, 0, t, i)) >= 1
    ensures var l := LastExpected(t, i);
      && l >= 0 && t[l].Store? && Rank(PointAt(c, 0, t, l)) <= 1
      && t[l].v == if PointAt(c, 0, t, i).Z1? then PointAt(c, 0, t, i).w else c.expected
    decreases i
  {
    NotAtStart(c, 0, t, i);
    ExpectedKept(c, t, i - 1);
    if !(Writes(t[i - 1]) && t[i - 1].a == EXPECTED) { ExpectedSetUp(c, t, i - 1); }
  }

  /** Set-up stores are the only ones of the expected value, and it is complete when set-up ends. */
  lemma KeepsExpected(c: Setup, s: Point, op: Op)
    requires Belongs(c, 0, s) && Next(c, 0, s, op) != Astray
    ensures Writes(op) && op.a == EXPECTED ==> op.Store? && Rank(s) <= 1 && Next(c, 0, s, op) == Z1(op.v)
    ensures var n := Next(c, 0, s, op);
      !(Writes(op) && op.a == EXPECTED) && Rank(n) >= 1 ==>
        Rank(s) >= 1 && (n.Z1? ==> s == n) && (!n.Z1? && s.Z1? ==> s.w == c.expected)
  {
  }

  lemma ExpectedKept(c: Setup, t: Trace, i: nat)
    requires Follows(c, 0, t) && i < |t|
    ensures Writes(t[i]) && t[i].a == EXPECTED ==>
      t[i].Store? && Rank(PointAt(c, 0, t, i)) <= 1 && PointAt(c, 0, t, i + 1) == Z1(t[i].v)
    ensures var s, n := PointAt(c, 0, t, i), PointAt(c, 0, t, i + 1);
      !(Writes(t[i]) && t[i].a == EXPECTED) && Rank(n) >= 1 ==>
        Rank(s) >= 1 && (n.Z1? ==> s == n) && (!n.Z1? && s.Z1? ==> s.w == c.expected)
  {
    OpAt(c, 0, t, i);
    KeepsExpected(c, PointAt(c, 0, t, i), t[i]);
  }

  /** A load of the expected value to which all of core 0's set-up is visible reads it. */
  lemma ExpectedRead(x: Execution, c: Setup, n: nat, done: nat)
    requires Session(x, c) && n < |x.gmo| && At(x, n).Load? && At(x, n).a == EXPECTED
    requires done <= |x.prog[0]| && Rank(PointAt(c, 0, x.prog[0], done)) >= 2
    requires forall s: nat | s < |x.gmo| && Writes(At(x, s)) && Rank(PointOf(x, c, s)) <= 1 ::
               s < n || (x.gmo[n].hart == 0 && x.gmo[s].i < x.gmo[n].i)
    ensures At(x, n).v == c.expected
  {
    ExpectedSetUp(c, x.prog[0], done);
    var l: nat := LastExpected(x.prog[0], done);
    var s := Position(x, Event(0, l));
    forall k: nat | k < |x.gmo| && Writes(At(x, k)) && At(x, k).a == EXPECTED ensures k <= s {
      StoreOf(x, c, k);
      RankOrders(c, 0, x.prog[0], x.gmo[k].i, done);
      if x.gmo[k].i < l {
        assert Preserved(x.prog[x.gmo[k].hart], x.gmo[k].i, x.gmo[s].i);
      } else {
        OnePlace(x, k, s);
      }
    }
    assert Visible(x, s, n);
    LastStoreIsRead(x, s, n);
  }

  /** Core 1's role runs after core 0's post. */
  lemma PostedBefore(x: Execution, c: Setup, n: nat) returns (done: nat)
    requires Session(x, c) && n < |x.gmo| && x.gmo[n].hart == 1 && Rank(PointOf(x, c, n)) >= 10
    ensures done <= |x.prog[0]| && Rank(PointAt(c, 0, x.prog[0], done)) >= 2
  {
    var a := PostTaken(c, x.prog[1], x.gmo[n].i);
    var k := StoreReturned(x, Position(x, Event(1, a)));
    StoreOf(x, c, k);
    done := x.gmo[k].i;
  }

  /** Where a role loads the expected value it is the one set up: always on core 0 and in the consumer, and in a
      producer on core 1 if both fences are there. */
  lemma ExpectedIsSetUp(x: Execution, c: Setup, n: nat)
    requires Session(x, c) && n < |x.gmo| && At(x, n).Load? && At(x, n).a == EXPECTED
    requires c.producer == 0 || (c.announced && c.awaited)
    ensures At(x, n).v == c.expected
  {
    var h, i := x.gmo[n].hart, x.gmo[n].i;
    OpAt(c, h, x.prog[h], i);
    forall s: nat | s < |x.gmo| && Writes(At(x, s)) && Rank(PointOf(x, c, s)) <= 1
      ensures s < n || (h == 0 && x.gmo[s].i < i)
    {
      StoreOf(x, c, s);
      if h == 0 {
        RankOrders(c, 0, x.prog[0], x.gmo[s].i, i);
      } else if c.producer == 0 {
        SentBeforeReceived(x, c, s, n);
      } else {
        SetUpBeforeJob(x, c, s, n);
      }
    }
    if h == 0 {
      ExpectedRead(x, c, n, i);
    } else {
      var done := PostedBefore(x, c, n);
      ExpectedRead(x, c, n, done);
    }
  }

  // ---- The theorems ----

  /** The store of the payload writes the expected value, and every clearing of the field performs before it. */
  lemma PayloadIsLast(x: Execution, c: Setup, s: nat)
    requires Session(x, c) && s < |x.gmo| && Writes(At(x, s)) && At(x, s).a == PAYLOAD && PointOf(x, c, s).P1?
    requires c.producer == 0 || (c.announced && c.awaited)
    ensures WriteValue(At(x, s)) == c.expected
    ensures forall k: nat | k < |x.gmo| && Writes(At(x, k)) && At(x, k).a == PAYLOAD :: k <= s
  {
    var h, i := x.gmo[s].hart, x.gmo[s].i;
    StoreOf(x, c, s);
    NotAtStart(c, h, x.prog[h], i);
    Entered(c, h, x.prog[h], i);
    ExpectedIsSetUp(x, c, Position(x, Event(h, i - 1)));
    forall k: nat | k < |x.gmo| && Writes(At(x, k)) && At(x, k).a == PAYLOAD ensures k <= s {
      StoreOf(x, c, k);
      if Rank(PointOf(x, c, k)) > 1 {
        OnePayload(c, h, x.prog[h], x.gmo[k].i, i);
        OnePlace(x, k, s);
      } else if h == 0 {
        RankOrders(c, 0, x.prog[0], x.gmo[k].i, i);
        assert Preserved(x.prog[x.gmo[k].hart], x.gmo[k].i, x.gmo[s].i);
      } else {
        SetUpBeforeJob(x, c, k, s);
      }
    }
  }

  /** A side passes its payload store, and its verdict store, once. */
  lemma OnePayload(c: Setup, h: nat, t: Trace, i: nat, j: nat)
    requires Follows(c, h, t) && i < |t| && j < |t|
    requires || (PointAt(c, h, t, i).P1? && PointAt(c, h, t, j).P1?)
             || (PointAt(c, h, t, i).C4? && PointAt(c, h, t, j).C4?)
    ensures i == j
  {
    if i < j { MovesPast(c, h, t, i, j); } else if j < i { MovesPast(c, h, t, j, i); }
  }

  lemma MovesPast(c: Setup, h: nat, t: Trace, i: nat, j: nat)
    requires Follows(c, h, t) && i < j <= |t| && (PointAt(c, h, t, i).P1? || PointAt(c, h, t, i).C4?)
    ensures Rank(PointAt(c, h, t, i)) < Rank(PointAt(c, h, t, j))
  {
    OpAt(c, h, t, i);
    NextMoves(c, h, PointAt(c, h, t, i), t[i]);
    RankGrows(c, h, t, i + 1, j);
  }

  lemma NextMoves(c: Setup, h: nat, s: Point, op: Op)
    requires s.P1? || s.C4?
    ensures Rank(s) < Rank(Next(c, h, s, op))
  {
  }

  /** Whenever the consumer has seen the flag, the payload it reads is the expected value, for every value: in P4.1A
      as the test stands, in P4.1B if the post and the job have their fences. */
  lemma ConsumerReadsPayload(x: Execution, c: Setup, n: nat)
    requires Session(x, c) && n < |x.gmo| && At(x, n).Load? && At(x, n).a == PAYLOAD
    requires c.producer == 0 || (c.announced && c.awaited)
    ensures At(x, n).v == c.expected
  {
    OpAt(c, x.gmo[n].hart, x.prog[x.gmo[n].hart], x.gmo[n].i);
    var s := PayloadSent(x, c, n);
    PayloadIsLast(x, c, s);
    SentBeforeReceived(x, c, s, n);
    LastStoreIsRead(x, s, n);
  }

  /** Under the same condition the consumer's verdict is always 1. */
  lemma VerdictStored(x: Execution, c: Setup, k: nat)
    requires Session(x, c) && k < |x.gmo| && Writes(At(x, k)) && At(x, k).a == VERDICT && PointOf(x, c, k).C4?
    requires c.producer == 0 || (c.announced && c.awaited)
    ensures WriteValue(At(x, k)) == 1
  {
    var h, i := x.gmo[k].hart, x.gmo[k].i;
    StoreOf(x, c, k);
    var p, e := Judged(x, c, k);
    ConsumerReadsPayload(x, c, p);
    ExpectedIsSetUp(x, c, e);
  }

  /** The two loads the verdict compares. */
  lemma Judged(x: Execution, c: Setup, k: nat) returns (p: nat, e: nat)
    requires Session(x, c) && k < |x.gmo| && PointOf(x, c, k).C4? && Writes(At(x, k))
    ensures p < |x.gmo| && At(x, p).Load? && At(x, p).a == PAYLOAD && PointOf(x, c, p) == C2
    ensures e < |x.gmo| && At(x, e).Load? && At(x, e).a == EXPECTED && x.gmo[p].hart == x.gmo[e].hart == x.gmo[k].hart
    ensures WriteValue(At(x, k)) == if At(x, p).v == At(x, e).v then 1 else 0
  {
    var h, i := x.gmo[k].hart, x.gmo[k].i;
    OpAt(c, h, x.prog[h], i);
    EnteredTwice(c, h, x.prog[h], i);
    p := Position(x, Event(h, i - 2));
    e := Position(x, Event(h, i - 1));
  }

  /** What the consumer stored before its fence is announced by the done flag. */
  lemma VerdictAnnounced(x: Execution, c: Setup, s: nat)
    requires Session(x, c) && s < |x.gmo| && Writes(At(x, s)) && PointOf(x, c, s).C4? && x.gmo[s].hart != c.producer
    ensures Announces(x.prog, x.gmo[s].hart, x.gmo[s].i, DONE, 1)
  {
    var h := x.gmo[s].hart;
    forall g: nat, d: nat {:trigger Raises(x.prog[g], d, DONE, 1)} | g < |x.prog| && Raises(x.prog[g], d, DONE, 1)
      ensures g == h && BehindStores(x.prog[h], x.gmo[s].i, d)
    {
      StoreOf(x, c, Position(x, Event(g, d)));
      EnteredTwice(c, h, x.prog[h], d);
      BehindFence(c, h, x.prog[h], x.gmo[s].i, d);
    }
  }

  /** The done flag the producer saw, and the verdict store two operations before it. */
  lemma VerdictSent(x: Execution, c: Setup, n: nat) returns (m: nat, s: nat)
    requires Session(x, c) && c.producer == 0 && n < |x.gmo| && x.gmo[n].hart == 0 && PointOf(x, c, n) == P6
    ensures m < |x.gmo| && x.gmo[m].hart == 0 && At(x, m) == Load(DONE, 1) && SawStore(x, m)
    ensures BehindLoads(x.prog[0], x.gmo[m].i, x.gmo[n].i)
    ensures s < |x.gmo| && x.gmo[s].hart == 1 && Writes(At(x, s)) && At(x, s).a == VERDICT && PointOf(x, c, s).C4?
  {
    var t, i := x.prog[0], x.gmo[n].i;
    EnteredTwice(c, 0, t, i);
    m := Position(x, Event(0, i - 2));
    assert t[i - 1] == FENCE_R_RW && i - 2 < i - 1 < i;
    ClearedSeen(x, c, m);
    var k := StoreReturned(x, m);
    StoreOf(x, c, k);
    s := VerdictBeforeDone(x, c, k);
  }

  lemma VerdictBeforeDone(x: Execution, c: Setup, k: nat) returns (s: nat)
    requires Session(x, c) && k < |x.gmo| && PointOf(x, c, k) == C6
    ensures s < |x.gmo| && x.gmo[s].hart == x.gmo[k].hart && Writes(At(x, s)) && At(x, s).a == VERDICT
    ensures PointOf(x, c, s).C4?
  {
    var h, i := x.gmo[k].hart, x.gmo[k].i;
    EnteredTwice(c, h, x.prog[h], i);
    s := Position(x, Event(h, i - 2));
  }

  lemma VerdictIsLast(x: Execution, c: Setup, s: nat)
    requires Session(x, c) && c.producer == 0 && s < |x.gmo| && x.gmo[s].hart == 1
    requires Writes(At(x, s)) && At(x, s).a == VERDICT && PointOf(x, c, s).C4?
    ensures forall k: nat | k < |x.gmo| && Writes(At(x, k)) && At(x, k).a == VERDICT :: k <= s
  {
    forall k: nat | k < |x.gmo| && Writes(At(x, k)) && At(x, k).a == VERDICT ensures k <= s {
      StoreOf(x, c, k);
      if Rank(PointOf(x, c, k)) > 1 {
        OnePayload(c, 1, x.prog[1], x.gmo[k].i, x.gmo[s].i);
        OnePlace(x, k, s);
      } else {
        SentBeforeReceived(x, c, k, s);
      }
    }
  }

  /** In P4.1A core 0, having seen the done flag and fenced, reads the verdict 1. */
  lemma ProducerReadsVerdict(x: Execution, c: Setup, n: nat)
    requires Session(x, c) && c.producer == 0 && n < |x.gmo| && At(x, n).Load? && At(x, n).a == VERDICT
    ensures At(x, n).v == 1
  {
    OpAt(c, x.gmo[n].hart, x.prog[x.gmo[n].hart], x.gmo[n].i);
    var m, s := VerdictSent(x, c, n);
    VerdictAnnounced(x, c, s);
    AnnouncedIsBefore(x, s, m, n);
    VerdictStored(x, c, s);
    VerdictIsLast(x, c, s);
    LastStoreIsRead(x, s, n);
  }

  // ---- P4.1B needs both of the fences it does not have ----

  /** P4.1B with the payload 7 and either fence present or not; without both, core 1 may load the expected value
      before core 0's store of it performs. */
  function LateSetup(announced: bool, awaited: bool): Setup { Setup(1, 7, announced, awaited) }

  function LateRun(announced: bool, awaited: bool): Execution {
    Execution(
      (a: Loc) => 0,
      [[Store(EXPECTED, 7), Optional(announced, FENCE_W_W), Store(MAILBOX, 1), FENCE_W_W,
        Load(FLAG, 1), FENCE_R_RW, Load(PAYLOAD, 0), Load(EXPECTED, 7), Store(VERDICT, 0)],
       [Load(MAILBOX, 1), Load(MAILBOX, 1), Optional(awaited, FENCE_R_RW),
        Load(EXPECTED, 0), Store(PAYLOAD, 0), FENCE_W_W, Store(FLAG, 1)]],
      (if announced then [Event(1, 3), Event(0, 0), Event(0, 2), Event(1, 0), Event(1, 1)]   // the load performs early
       else [Event(0, 2), Event(1, 0), Event(1, 1), Event(1, 3), Event(0, 0)])               // the store performs late
      + [Event(1, 4), Event(1, 6), Event(0, 4), Event(0, 6), Event(0, 7), Event(0, 8)])
  }

  /** Where an event of the run stands in its global memory order. */
  function LatePlace(announced: bool, e: Event): nat {
    if e.hart == 0 then
      (if e.i == 0 then (if announced then 1 else 4) else if e.i == 2 then (if announced then 2 else 0)
       else if e.i == 4 then 7 else if e.i == 6 then 8 else if e.i == 7 then 9 else 10)
    else
      (if e.i == 0 then (if announced then 3 else 1) else if e.i == 1 then (if announced then 4 else 2)
       else if e.i == 3 then (if announced then 0 else 3) else if e.i == 4 then 5 else 6)
  }

  lemma LateEvent(announced: bool, awaited: bool, n: nat)
    requires n < 11
    ensures IsEvent(LateRun(announced, awaited), LateRun(announced, awaited).gmo[n])
    ensures LatePlace(announced, LateRun(announced, awaited).gmo[n]) == n
  {
  }

  lemma LateComplete(announced: bool, awaited: bool, e: Event)
    requires IsEvent(LateRun(announced, awaited), e)
    ensures LatePlace(announced, e) < 11 && LateRun(announced, awaited).gmo[LatePlace(announced, e)] == e
  {
  }

  lemma LateOrder(announced: bool, awaited: bool)
    ensures IsOrder(LateRun(announced, awaited)) && |LateRun(announced, awaited).gmo| == 11
  {
    var x := LateRun(announced, awaited);
    forall n | 0 <= n < |x.gmo| ensures IsEvent(x, x.gmo[n]) && LatePlace(announced, x.gmo[n]) == n {
      LateEvent(announced, awaited, n);
    }
    forall e | IsEvent(x, e) ensures e in x.gmo { LateComplete(announced, awaited, e); }
  }

  /** The pairs out of program order: core 1's load of the expected value and its loads of the mailbox, or core 0's
      two stores. */
  lemma LateReorders(announced: bool, awaited: bool)
    requires !announced || !awaited
    ensures IsOrder(LateRun(announced, awaited)) && ReordersUnordered(LateRun(announced, awaited))
  {
    var x := LateRun(announced, awaited);
    LateOrder(announced, awaited);
    assert announced ==> Unordered(x.prog[1], 0, 3) && Unordered(x.prog[1], 1, 3);
    assert !announced ==> Unordered(x.prog[0], 0, 2);
    forall m: nat, n: nat | n < m < |x.gmo| && x.gmo[m].hart == x.gmo[n].hart && x.gmo[m].i < x.gmo[n].i
      ensures Unordered(x.prog[x.gmo[m].hart], x.gmo[m].i, x.gmo[n].i)
    {
      assert if announced then n == 0 && (m == 3 || m == 4) else n == 0 && m == 4;
    }
  }

  lemma LateReads(announced: bool, awaited: bool, m: nat)
    requires IsOrder(LateRun(announced, awaited)) && m < 11 && Reads(At(LateRun(announced, awaited), m))
    ensures LoadValue(LateRun(announced, awaited), m)
  {
    LateEvent(announced, awaited, m);
    if m < 5 { LateReadsStart(announced, awaited, m); } else { LateReadsEnd(announced, awaited, m); }
  }

  lemma LateReadsEnd(announced: bool, awaited: bool, m: nat)
    requires IsOrder(LateRun(announced, awaited)) && 5 <= m < 11 && Reads(At(LateRun(announced, awaited), m))
    ensures LoadValue(LateRun(announced, awaited), m)
  {
    var x := LateRun(announced, awaited);
    if m == 7 {
      assert ReturnsFrom(x, 6, 7);
    } else if m == 8 {
      assert ReturnsFrom(x, 5, 8);
    } else {
      LateReadsOwn(announced, awaited);
    }
  }

  /** Core 0 reads its own store of the expected value. */
  lemma LateReadsOwn(announced: bool, awaited: bool)
    requires IsOrder(LateRun(announced, awaited))
    ensures Reads(At(LateRun(announced, awaited), 9)) && LoadValue(LateRun(announced, awaited), 9)
  {
    var x := LateRun(announced, awaited);
    if announced { assert ReturnsFrom(x, 1, 9); } else { assert ReturnsFrom(x, 4, 9); }
  }

  lemma LateReadsStart(announced: bool, awaited: bool, m: nat)
    requires IsOrder(LateRun(announced, awaited)) && m < 5 && Reads(At(LateRun(announced, awaited), m))
    ensures LoadValue(LateRun(announced, awaited), m)
  {
    var x := LateRun(announced, awaited);
    if announced {
      if m == 0 { assert forall n: nat | n < |x.gmo| :: !Visible(x, n, 0); }
      if m == 3 || m == 4 { assert ReturnsFrom(x, 2, m); }
    } else {
      if m == 1 || m == 2 { assert ReturnsFrom(x, 0, m); }
      if m == 3 { assert forall n: nat | n < |x.gmo| :: !Visible(x, n, 3); }
    }
  }

  lemma LateGenuine(announced: bool, awaited: bool)
    requires !announced || !awaited
    ensures Genuine(LateRun(announced, awaited)) && Allowed(LateRun(announced, awaited))
  {
    var x := LateRun(announced, awaited);
    LateReorders(announced, awaited);
    forall m: nat | m < |x.gmo| && Reads(At(x, m)) ensures LoadValue(x, m) {
      LateOrder(announced, awaited);
      LateReads(announced, awaited, m);
    }
    GenuineIsAllowed(x);
  }

  lemma Step(c: Setup, h: nat, t: Trace, i: nat, s: Point, next: Point)
    requires i < |t| && PointAt(c, h, t, i) == s && Next(c, h, s, t[i]) == next
    ensures PointAt(c, h, t, i + 1) == next
  {
    Stepping(c, h, t, i);
  }

  lemma LatePosts(announced: bool, awaited: bool)
    ensures PointAt(LateSetup(announced, awaited), 0, LateRun(announced, awaited).prog[0], 4) == C0
  {
    var c, t := LateSetup(announced, awaited), LateRun(announced, awaited).prog[0];
    StartPoint(c, 0, t);
    Step(c, 0, t, 0, Z0, Z1(7));
    Step(c, 0, t, 1, Z1(7), Z2);
    Step(c, 0, t, 2, Z2, Z3);
    Step(c, 0, t, 3, Z3, C0);
  }

  /** From the consumer's first point to its reads, and from there to its verdict. */
  lemma Receives(c: Setup, h: nat, t: Trace, i: nat)
    requires i + 2 < |t| && PointAt(c, h, t, i) == C0 && t[i] == Load(FLAG, 1) && t[i + 1] == FENCE_R_RW
    ensures PointAt(c, h, t, i + 2) == C2
  {
    Step(c, h, t, i, C0, C1);
    Step(c, h, t, i + 1, C1, C2);
  }

  lemma Judges(c: Setup, h: nat, t: Trace, i: nat, p: Word, e: Word)
    requires i + 3 == |t| && PointAt(c, h, t, i) == C2 && t[i] == Load(PAYLOAD, p) && t[i + 1] == Load(EXPECTED, e)
    requires t[i + 2] == Store(VERDICT, if p == e then 1 else 0)
    ensures Follows(c, h, t)
  {
    Step(c, h, t, i, C2, C3(p));
    Step(c, h, t, i + 1, C3(p), C4(p, e));
    Step(c, h, t, i + 2, C4(p, e), C5);
  }

  lemma LateFollows0(announced: bool, awaited: bool)
    ensures Follows(LateSetup(announced, awaited), 0, LateRun(announced, awaited).prog[0])
  {
    LatePosts(announced, awaited);
    Receives(LateSetup(announced, awaited), 0, LateRun(announced, awaited).prog[0], 4);
    Judges(LateSetup(announced, awaited), 0, LateRun(announced, awaited).prog[0], 6, 0, 7);
  }

  lemma LateTakes(announced: bool, awaited: bool)
    ensures PointAt(LateSetup(announced, awaited), 1, LateRun(announced, awaited).prog[1], 3) == P0
  {
    var c, t := LateSetup(announced, awaited), LateRun(announced, awaited).prog[1];
    StartPoint(c, 1, t);
    Step(c, 1, t, 0, J0, J1);
    Step(c, 1, t, 1, J1, J2);
    Step(c, 1, t, 2, J2, P0);
  }

  /** From the producer's first point to its flag. */
  lemma ProducesTo(c: Setup, h: nat, t: Trace, i: nat, e: Word)
    requires i + 4 == |t| && PointAt(c, h, t, i) == P0
    requires t[i] == Load(EXPECTED, e) && t[i + 1] == Store(PAYLOAD, e)
    requires t[i + 2] == FENCE_W_W && t[i + 3] == Store(FLAG, 1)
    ensures Follows(c, h, t)
  {
    Step(c, h, t, i, P0, P1(e));
    Step(c, h, t, i + 1, P1(e), P2);
    Step(c, h, t, i + 2, P2, P3);
    Step(c, h, t, i + 3, P3, P4);
  }

  lemma LateFollows1(announced: bool, awaited: bool)
    ensures Follows(LateSetup(announced, awaited), 1, LateRun(announced, awaited).prog[1])
  {
    LateTakes(announced, awaited);
    ProducesTo(LateSetup(announced, awaited), 1, LateRun(announced, awaited).prog[1], 3, 0);
  }

  /** Without either fence, and so in the test, core 1 may publish the old expected value; core 0 then stores the
      verdict 0 and its assertion fails. */
  lemma UnfencedPostFails(announced: bool, awaited: bool)
    requires !announced || !awaited
    ensures var x := LateRun(announced, awaited);
      Genuine(x) && Session(x, LateSetup(announced, awaited)) && OpOf(x, Event(0, 8)) == Store(VERDICT, 0)
  {
    LateGenuine(announced, awaited);
    LateFollows0(announced, awaited);
    LateFollows1(announced, awaited);
  }

  // ---- The fences of the message itself are needed ----

  /** A payload and its flag, with the two fences of the test present or not. */
  function LateMessage(sent: bool, received: bool): Execution {
    Execution(
      (a: Loc) => 0,
      [[Store(PAYLOAD, 7), Optional(sent, FENCE_W_W), Store(FLAG, 1)],
       [Load(FLAG, 1), Optional(received, FENCE_R_RW), Load(PAYLOAD, 0)]],
      if sent then [Event(1, 2), Event(0, 0), Event(0, 2), Event(1, 0)]
      else [Event(0, 2), Event(1, 0), Event(1, 2), Event(0, 0)])
  }

  lemma MessageOrder(sent: bool, received: bool)
    ensures IsOrder(LateMessage(sent, received))
  {
    var x := LateMessage(sent, received);
    forall e | IsEvent(x, e) ensures e in x.gmo {
      assert e == x.gmo[0] || e == x.gmo[1] || e == x.gmo[2] || e == x.gmo[3];
    }
  }

  lemma MessageReorders(sent: bool, received: bool)
    requires !sent || !received
    ensures IsOrder(LateMessage(sent, received)) && ReordersUnordered(LateMessage(sent, received))
  {
    var x := LateMessage(sent, received);
    MessageOrder(sent, received);
    assert sent ==> Unordered(x.prog[1], 0, 2);
    assert !sent ==> Unordered(x.prog[0], 0, 2);
    forall m: nat, n: nat | n < m < |x.gmo| && x.gmo[m].hart == x.gmo[n].hart && x.gmo[m].i < x.gmo[n].i
      ensures Unordered(x.prog[x.gmo[m].hart], x.gmo[m].i, x.gmo[n].i)
    {
      assert n == 0 && m == 3;
    }
  }

  /** With only one of them, or none, the consumer may see the flag and read the old payload. */
  lemma UnfencedMessageFails(sent: bool, received: bool)
    requires !sent || !received
    ensures var x := LateMessage(sent, received);
      Genuine(x) && OpOf(x, Event(1, 0)) == Load(FLAG, 1) && OpOf(x, Event(1, 2)) == Load(PAYLOAD, 0)
  {
    var x := LateMessage(sent, received);
    MessageReorders(sent, received);
    if sent {
      assert ReturnsFrom(x, 2, 3);
      assert forall n: nat | n < |x.gmo| :: !Visible(x, n, 0);
    } else {
      assert ReturnsFrom(x, 0, 1);
      assert forall n: nat | n < |x.gmo| :: !Visible(x, n, 2);
    }
    forall m: nat | m < |x.gmo| && Reads(At(x, m)) ensures LoadValue(x, m) {
      assert if sent then m == 0 || m == 3 else m == 1 || m == 2;
    }
  }
}
