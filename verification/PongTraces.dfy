/** What the ping-pong theorems cover: every trace the source's loop can make is a player's, and for every number of
    rounds there is an execution in which both harts play them, each spinning in vain before each of its turns. */
module PongTraces {
  import opened Words
  import opened Rvwmo
  import opened PingPong
  import opened Interleaved

  // ---- The loops as the source writes them ----

  /** One round: what the loads that spun in vain returned, and what the load of the count returned. */
  datatype Played = Played(spins: seq<Word>, v: Word)

  /** `while (*flag != expected)`, so far in vain. */
  function Spins(spins: seq<Word>): Trace {
    if spins == [] then [] else [Load(TURN, spins[0])] + Spins(spins[1..])
  }

  /** The turn comes, and the count is updated and handed over. */
  function TurnTrace(me: nat, v: Word): Trace
    requires me < 2
  {
    [Load(TURN, me), Fence(true, false, true, true), Load(COUNT, v), Store(COUNT, Plus(v, 1)),
     Fence(true, true, false, true), Store(TURN, 1 - me)]
  }

  function LoopTrace(me: nat, rounds: seq<Played>): Trace
    requires me < 2
  {
    if rounds == [] then []
    else
      var r := rounds[|rounds| - 1];
      LoopTrace(me, rounds[..|rounds| - 1]) + Spins(r.spins) + TurnTrace(me, r.v)
  }

  /** Core 0's last wait and the read of the count. */
  function CheckTrace(spins: seq<Word>, v: Word): Trace {
    Spins(spins) + [Load(TURN, 0), Fence(true, false, true, true), Load(COUNT, v)]
  }

  predicate InVain(me: nat, spins: seq<Word>) { forall i | 0 <= i < |spins| :: spins[i] != me }

  predicate AllInVain(me: nat, rounds: seq<Played>) { forall k | 0 <= k < |rounds| :: InVain(me, rounds[k].spins) }

  /** The point a hart reaches from s. */
  function After(me: nat, s: Point, t: Trace): Point
    decreases |t|
  {
    if t == [] then s else After(me, Next(me, s, t[0]), t[1..])
  }

  lemma {:induction false} AfterAppend(me: nat, s: Point, t: Trace, u: Trace)
    ensures After(me, s, t + u) == After(me, After(me, s, t), u)
    decreases |t|
  {
    if t == [] {
      assert t + u == u;
    } else {
      assert (t + u)[1..] == t[1..] + u;
      AfterAppend(me, Next(me, s, t[0]), t[1..], u);
    }
  }

  lemma AfterOne(me: nat, s: Point, op: Op, rest: Trace)
    ensures After(me, s, [op] + rest) == After(me, Next(me, s, op), rest)
  {
    assert ([op] + rest)[1..] == rest;
  }

  lemma {:induction false} PointOfPrefix(me: nat, t: Trace, u: Trace, n: nat)
    requires n <= |t|
    ensures PointAt(me, t + u, n) == PointAt(me, t, n)
  {
    if n > 0 { PointOfPrefix(me, t, u, n - 1); }
  }

  lemma {:induction false} PointIsAfter(me: nat, t: Trace)
    ensures PointAt(me, t, |t|) == After(me, Spinning(0), t)
    decreases |t|
  {
    if t != [] {
      var n := |t| - 1;
      assert t == t[..n] + [t[n]];
      PointIsAfter(me, t[..n]);
      AfterAppend(me, Spinning(0), t[..n], [t[n]]);
      PointOfPrefix(me, t[..n], [t[n]], n);
      assert After(me, PointAt(me, t, n), [t[n]]) == Next(me, PointAt(me, t, n), t[n]);
    }
  }

  lemma {:induction false} SpinsWait(me: nat, n: nat, spins: seq<Word>)
    requires InVain(me, spins)
    ensures After(me, Spinning(n), Spins(spins)) == Spinning(n)
  {
    if spins != [] {
      assert Spins(spins)[1..] == Spins(spins[1..]);
      SpinsWait(me, n, spins[1..]);
    }
  }

  lemma TurnPasses(me: nat, n: nat, v: Word)
    requires me < 2
    ensures After(me, Spinning(n), TurnTrace(me, v)) == Spinning(n + 1)
  {
    AfterOne(me, Spinning(n), Load(TURN, me),
             [Fence(true, false, true, true), Load(COUNT, v), Store(COUNT, Plus(v, 1)),
              Fence(true, true, false, true), Store(TURN, 1 - me)]);
    AfterOne(me, Won(n), Fence(true, false, true, true),
             [Load(COUNT, v), Store(COUNT, Plus(v, 1)), Fence(true, true, false, true), Store(TURN, 1 - me)]);
    AfterOne(me, Entered(n), Load(COUNT, v),
             [Store(COUNT, Plus(v, 1)), Fence(true, true, false, true), Store(TURN, 1 - me)]);
    AfterOne(me, Loaded(n, v), Store(COUNT, Plus(v, 1)), [Fence(true, true, false, true), Store(TURN, 1 - me)]);
    AfterOne(me, Stored(n), Fence(true, true, false, true), [Store(TURN, 1 - me)]);
    AfterOne(me, Leaving(n), Store(TURN, 1 - me), []);
    assert [Store(TURN, 1 - me)] + [] == [Store(TURN, 1 - me)];
  }

  lemma {:induction false} LoopEndsSpinning(me: nat, rounds: seq<Played>)
    requires me < 2 && AllInVain(me, rounds)
    ensures After(me, Spinning(0), LoopTrace(me, rounds)) == Spinning(|rounds|)
    decreases |rounds|
  {
    if rounds != [] {
      var n := |rounds| - 1;
      var t := LoopTrace(me, rounds[..n]);
      assert forall k | 0 <= k < n :: InVain(me, rounds[..n][k].spins);
      LoopEndsSpinning(me, rounds[..n]);
      AfterAppend(me, Spinning(0), t, Spins(rounds[n].spins));
      SpinsWait(me, n, rounds[n].spins);
      AfterAppend(me, Spinning(0), t + Spins(rounds[n].spins), TurnTrace(me, rounds[n].v));
      TurnPasses(me, n, rounds[n].v);
    }
  }

  /** Every trace of the loop is a player's: any number of rounds, any number of spins in each, and any values
      loaded. */
  lemma AnyLoopIsPlayer(me: nat, rounds: seq<Played>)
    requires me < 2 && AllInVain(me, rounds)
    ensures Player(me, LoopTrace(me, rounds))
    ensures PointAt(me, LoopTrace(me, rounds), |LoopTrace(me, rounds)|) == Spinning(|rounds|)
  {
    LoopEndsSpinning(me, rounds);
    PointIsAfter(me, LoopTrace(me, rounds));
  }

  /** So is core 0's loop with its last wait and the read behind it, which is the read of round |rounds|. */
  lemma AnyCheckIsPlayer(rounds: seq<Played>, spins: seq<Word>, v: Word)
    requires AllInVain(0, rounds) && InVain(0, spins)
    ensures var t := LoopTrace(0, rounds) + CheckTrace(spins, v);
      Player(0, t) && PointAt(0, t, |t| - 1) == Entered(|rounds|)
  {
    var t := LoopTrace(0, rounds) + Spins(spins);
    var last := [Load(TURN, 0), Fence(true, false, true, true)];
    LoopEndsSpinning(0, rounds);
    AfterAppend(0, Spinning(0), LoopTrace(0, rounds), Spins(spins));
    SpinsWait(0, |rounds|, spins);
    AfterAppend(0, Spinning(0), t, last);
    AfterOne(0, Spinning(|rounds|), Load(TURN, 0), [Fence(true, false, true, true)]);
    AfterOne(0, Won(|rounds|), Fence(true, false, true, true), []);
    assert [Fence(true, false, true, true)] + [] == [Fence(true, false, true, true)];
    PointIsAfter(0, t + last);
    PointOfPrefix(0, t + last, [Load(COUNT, v)], |t + last|);
    assert LoopTrace(0, rounds) + CheckTrace(spins, v) == t + last + [Load(COUNT, v)];
  }

  // ---- Games of any length ----

  /** Both harts have played n rounds and core 0 has the turn. */
  ghost predicate Even(x: Execution, n: nat) {
    && Sequential(x) && |x.prog| == 2 && x.init(TURN) == 0 && x.init(COUNT) == 0
    && Final(x, TURN) == 0 && Final(x, COUNT) == 2 * n % 0x1_0000_0000_0000_0000
    && PointAt(0, x.prog[0], |x.prog[0]|) == Spinning(n) && PointAt(1, x.prog[1], |x.prog[1]|) == Spinning(n)
  }

  /** One operation of hart h, which reads memory. */
  lemma OneStep(x: Execution, h: nat, op: Op)
    requires Sequential(x) && h < |x.prog| && (Reads(op) ==> ReadValue(op) == Final(x, op.a))
    ensures var y := Then(x, h, op);
      && Sequential(y) && Final(y, TURN) == Written(op, TURN, Final(x, TURN))
      && Final(y, COUNT) == Written(op, COUNT, Final(x, COUNT))
      && PointAt(h, y.prog[h], |y.prog[h]|) == Next(h, PointAt(h, x.prog[h], |x.prog[h]|), op)
      && forall g | 0 <= g < |x.prog| && g != h :: y.prog[g] == x.prog[g]
  {
    ThenSequential(x, h, op);
    PointOfPrefix(h, x.prog[h], [op], |x.prog[h]|);
  }

  /** The other hart spins once in vain, and hart h sees its turn and enters. */
  function Entering(x: Execution, h: nat): (y: Execution)
    requires |x.prog| == 2 && h < 2
    ensures |y.prog| == 2
  {
    Then(Then(Then(x, 1 - h, Load(TURN, h)), h, Load(TURN, h)), h, Fence(true, false, true, true))
  }

  function Passing(x: Execution, h: nat, v: Word): (y: Execution)
    requires |x.prog| == 2 && h < 2
    ensures |y.prog| == 2
  {
    Then(Then(Then(Then(x, h, Load(COUNT, v)), h, Store(COUNT, Plus(v, 1))), h, Fence(true, true, false, true)),
         h, Store(TURN, 1 - h))
  }

  lemma Enters(x: Execution, h: nat, n: nat, k: nat)
    requires Sequential(x) && |x.prog| == 2 && h < 2 && Final(x, TURN) == h
    requires PointAt(h, x.prog[h], |x.prog[h]|) == Spinning(n)
    requires PointAt(1 - h, x.prog[1 - h], |x.prog[1 - h]|) == Spinning(k)
    ensures var y := Entering(x, h);
      && Sequential(y) && y.init == x.init && Final(y, TURN) == h && Final(y, COUNT) == Final(x, COUNT)
      && PointAt(h, y.prog[h], |y.prog[h]|) == PingPong.Entered(n)
      && PointAt(1 - h, y.prog[1 - h], |y.prog[1 - h]|) == Spinning(k)
  {
    var x1 := Then(x, 1 - h, Load(TURN, h));
    OneStep(x, 1 - h, Load(TURN, h));
    OneStep(x1, h, Load(TURN, h));
    OneStep(Then(x1, h, Load(TURN, h)), h, Fence(true, false, true, true));
  }

  lemma Passes(x: Execution, h: nat, n: nat, v: Word)
    requires Sequential(x) && |x.prog| == 2 && h < 2 && Final(x, TURN) == h && Final(x, COUNT) == v
    requires PointAt(h, x.prog[h], |x.prog[h]|) == PingPong.Entered(n)
    ensures var y := Passing(x, h, v);
      && Sequential(y) && y.init == x.init && Final(y, TURN) == 1 - h && Final(y, COUNT) == Plus(v, 1)
      && PointAt(h, y.prog[h], |y.prog[h]|) == Spinning(n + 1) && y.prog[1 - h] == x.prog[1 - h]
  {
    var x1 := Then(x, h, Load(COUNT, v));
    OneStep(x, h, Load(COUNT, v));
    OneStep(x1, h, Store(COUNT, Plus(v, 1)));
    HandsOver(Then(x1, h, Store(COUNT, Plus(v, 1))), h, n);
  }

  lemma HandsOver(x: Execution, h: nat, n: nat)
    requires Sequential(x) && |x.prog| == 2 && h < 2 && PointAt(h, x.prog[h], |x.prog[h]|) == Stored(n)
    ensures var y := Then(Then(x, h, Fence(true, true, false, true)), h, Store(TURN, 1 - h));
      && Sequential(y) && y.init == x.init && Final(y, TURN) == 1 - h && Final(y, COUNT) == Final(x, COUNT)
      && PointAt(h, y.prog[h], |y.prog[h]|) == Spinning(n + 1) && y.prog[1 - h] == x.prog[1 - h]
  {
    OneStep(x, h, Fence(true, true, false, true));
    OneStep(Then(x, h, Fence(true, true, false, true)), h, Store(TURN, 1 - h));
  }

  /** Hart h plays its round. */
  lemma Plays(x: Execution, h: nat, n: nat, k: nat) returns (y: Execution)
    requires Sequential(x) && |x.prog| == 2 && h < 2 && Final(x, TURN) == h
    requires PointAt(h, x.prog[h], |x.prog[h]|) == Spinning(n)
    requires PointAt(1 - h, x.prog[1 - h], |x.prog[1 - h]|) == Spinning(k)
    ensures Sequential(y) && |y.prog| == 2 && y.init == x.init
    ensures Final(y, TURN) == 1 - h && Final(y, COUNT) == Plus(Final(x, COUNT), 1)
    ensures PointAt(h, y.prog[h], |y.prog[h]|) == Spinning(n + 1)
    ensures PointAt(1 - h, y.prog[1 - h], |y.prog[1 - h]|) == Spinning(k)
  {
    Enters(x, h, n, k);
    Passes(Entering(x, h), h, n, Final(x, COUNT));
    y := Passing(Entering(x, h), h, Final(x, COUNT));
  }

  /** For every n there is a game of n rounds each; the count ends at 2n. */
  lemma {:induction false} AnyLengthRuns(n: nat) returns (x: Execution)
    ensures Even(x, n) && Game(x)
  {
    if n == 0 {
      x := NotStarted((a: Loc) => 0, 2);
      NotStartedIsSequential((a: Loc) => 0, 2);
    } else {
      var y := AnyLengthRuns(n - 1);
      var z := Plays(y, 0, n - 1, n - 1);
      x := Plays(z, 1, n - 1, n);
      SuccMod(2 * (n - 1));
      SuccMod(2 * (n - 1) + 1);
    }
    SequentialIsAllowed(x);
  }
}
