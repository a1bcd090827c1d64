/** What the message-passing theorems cover: every trace the source's two sides can make, with any number of polls in
    each of the waits, and in both directions an execution that runs to the end. */
module MessageTraces {
  import opened Words
  import opened Rvwmo
  import opened Handshake
  import opened MessagePassing
  import opened Interleaved

  // ---- The sides as the source writes them ----

  /** Polls of a word that returned what does not end the wait. */
  function Polls(a: Loc, seen: seq<Word>): Trace { if seen == [] then [] else [Load(a, seen[0])] + Polls(a, seen[1..]) }

  function Clears(fields: seq<Loc>): Trace {
    if fields == [] then [] else [Store(fields[0], 0)] + Clears(fields[1..])
  }

  /** Core 0: clear, set the expected value, post. */
  function PostTrace(c: Setup, fields: seq<Loc>, f: Word): Trace {
    Clears(fields)
    + [Store(EXPECTED, c.expected), Optional(c.announced, FENCE_W_W), Store(MAILBOX, f),
       Fence(false, true, false, true)]
  }

  /** Core 1: wait for the post, call through the word. */
  function TakeTrace(c: Setup, idle: seq<Word>, f: Word): Trace {
    Polls(MAILBOX, idle) + [Load(MAILBOX, f), Load(MAILBOX, f), Optional(c.awaited, FENCE_R_RW)]
  }

  /** The producer up to its flag; its wait and its read of the verdict. */
  function SendTrace(e: Word): Trace {
    [Load(EXPECTED, e), Store(PAYLOAD, e), Fence(false, true, false, true), Store(FLAG, 1)]
  }

  function CheckTrace(waits: seq<Word>, verdict: Word): Trace {
    Polls(DONE, waits) + [Load(DONE, 1), Fence(true, false, true, true), Load(VERDICT, verdict)]
  }

  /** The consumer: its wait and its reads; its verdict and its done flag. */
  function ReadTrace(flag: Word, p: Word, e: Word): Trace {
    [Load(FLAG, flag), Fence(true, false, true, true), Load(PAYLOAD, p), Load(EXPECTED, e)]
  }

  function JudgeTrace(p: Word, e: Word): Trace {
    [Store(VERDICT, if p == e then 1 else 0), Fence(false, true, false, true), Store(DONE, 1)]
  }

  function ReceiveTrace(waits: nat, flag: Word, p: Word, e: Word): Trace {
    Polls(FLAG, seq(waits, _ => 0)) + ReadTrace(flag, p, e) + JudgeTrace(p, e)
  }

  // ---- All of them are sides ----

  function After(c: Setup, h: nat, s: Point, t: Trace): Point
    decreases |t|
  {
    if t == [] then s else After(c, h, Next(c, h, s, t[0]), t[1..])
  }

  lemma {:induction false} AfterAppend(c: Setup, h: nat, s: Point, t: Trace, u: Trace)
    ensures After(c, h, s, t + u) == After(c, h, After(c, h, s, t), u)
    decreases |t|
  {
    if t == [] {
      assert t + u == u;
    } else {
      assert (t + u)[1..] == t[1..] + u;
      AfterAppend(c, h, Next(c, h, s, t[0]), t[1..], u);
    }
  }

  lemma AfterOne(c: Setup, h: nat, s: Point, op: Op, rest: Trace)
    ensures After(c, h, s, [op] + rest) == After(c, h, Next(c, h, s, op), rest)
  {
    assert ([op] + rest)[1..] == rest;
  }

  lemma AfterLast(c: Setup, h: nat, s: Point, op: Op)
    ensures After(c, h, s, [op]) == Next(c, h, s, op)
  {
    AfterOne(c, h, s, op, []);
    assert [op] + [] == [op];
  }

  lemma {:induction false} PointIsAfter(c: Setup, h: nat, t: Trace)
    ensures PointAt(c, h, t, |t|) == After(c, h, StartOf(h), t)
    decreases |t|
  {
    if t != [] {
      var n := |t| - 1;
      PointIsAfter(c, h, t[..n]);
      assert t == t[..n] + [t[n]];
      AfterAppend(c, h, StartOf(h), t[..n], [t[n]]);
      AfterLast(c, h, PointAt(c, h, t[..n], n), t[n]);
      Stepping(c, h, t, n);
      assert PointAt(c, h, t, n) == PointAt(c, h, t[..n], n);
    }
  }

  /** A point that waits on a word stays there while it sees what it does not wait for. */
  predicate Waits(s: Point, a: Loc, v: Word) {
    || (s == J0 && a == MAILBOX && v == 0)
    || (s == C0 && a == FLAG && v == 0)
    || (s == P4 && a == DONE && v != 1)
  }

  lemma {:induction false} PollsWait(c: Setup, h: nat, s: Point, a: Loc, seen: seq<Word>)
    requires forall i | 0 <= i < |seen| :: Waits(s, a, seen[i])
    ensures After(c, h, s, Polls(a, seen)) == s
  {
    if seen != [] {
      assert Polls(a, seen)[1..] == Polls(a, seen[1..]);
      PollsWait(c, h, s, a, seen[1..]);
    }
  }

  predicate Fields(fields: seq<Loc>) {
    forall i | 0 <= i < |fields| :: fields[i] in {PAYLOAD, EXPECTED, FLAG, DONE, VERDICT}
  }

  lemma {:induction false} ClearsStay(c: Setup, h: nat, s: Point, fields: seq<Loc>)
    requires Fields(fields) && (s.Z0? || s.Z1?)
    ensures var r := After(c, h, s, Clears(fields)); r.Z0? || r.Z1?
    decreases |fields|
  {
    if fields != [] {
      assert Clears(fields)[1..] == Clears(fields[1..]);
      ClearsStay(c, h, Next(c, h, s, Store(fields[0], 0)), fields[1..]);
    }
  }

  lemma PostEnds(c: Setup, fields: seq<Loc>, f: Word)
    requires Fields(fields) && f != 0
    ensures After(c, 0, Z0, PostTrace(c, fields, f)) == Role(c, 0)
  {
    var post := [Store(EXPECTED, c.expected), Optional(c.announced, FENCE_W_W), Store(MAILBOX, f),
                 Fence(false, true, false, true)];
    ClearsStay(c, 0, Z0, fields);
    AfterAppend(c, 0, Z0, Clears(fields), post);
    var s := After(c, 0, Z0, Clears(fields));
    AfterOne(c, 0, s, Store(EXPECTED, c.expected),
             [Optional(c.announced, FENCE_W_W), Store(MAILBOX, f), Fence(false, true, false, true)]);
    AfterOne(c, 0, Z1(c.expected), Optional(c.announced, FENCE_W_W),
             [Store(MAILBOX, f), Fence(false, true, false, true)]);
    AfterOne(c, 0, Z2, Store(MAILBOX, f), [Fence(false, true, false, true)]);
    AfterLast(c, 0, Z3, Fence(false, true, false, true));
  }

  lemma TakeEnds(c: Setup, idle: seq<Word>, f: Word)
    requires f != 0 && forall i | 0 <= i < |idle| :: idle[i] == 0
    ensures After(c, 1, J0, TakeTrace(c, idle, f)) == Role(c, 1)
  {
    var call := [Load(MAILBOX, f), Load(MAILBOX, f), Optional(c.awaited, FENCE_R_RW)];
    PollsWait(c, 1, J0, MAILBOX, idle);
    AfterAppend(c, 1, J0, Polls(MAILBOX, idle), call);
    AfterOne(c, 1, J0, Load(MAILBOX, f), [Load(MAILBOX, f), Optional(c.awaited, FENCE_R_RW)]);
    AfterOne(c, 1, J1, Load(MAILBOX, f), [Optional(c.awaited, FENCE_R_RW)]);
    AfterLast(c, 1, J2, Optional(c.awaited, FENCE_R_RW));
  }

  lemma SendEnds(c: Setup, h: nat, e: Word)
    ensures After(c, h, P0, SendTrace(e)) == P4
  {
    AfterOne(c, h, P0, Load(EXPECTED, e), [Store(PAYLOAD, e), Fence(false, true, false, true), Store(FLAG, 1)]);
    AfterOne(c, h, P1(e), Store(PAYLOAD, e), [Fence(false, true, false, true), Store(FLAG, 1)]);
    AfterOne(c, h, P2, Fence(false, true, false, true), [Store(FLAG, 1)]);
    AfterLast(c, h, P3, Store(FLAG, 1));
  }

  lemma CheckEnds(c: Setup, h: nat, waits: seq<Word>, verdict: Word)
    requires forall i | 0 <= i < |waits| :: waits[i] != 1
    ensures After(c, h, P4, CheckTrace(waits, verdict)) == P7
  {
    var read := [Load(DONE, 1), Fence(true, false, true, true), Load(VERDICT, verdict)];
    PollsWait(c, h, P4, DONE, waits);
    AfterAppend(c, h, P4, Polls(DONE, waits), read);
    AfterOne(c, h, P4, Load(DONE, 1), [Fence(true, false, true, true), Load(VERDICT, verdict)]);
    AfterOne(c, h, P5, Fence(true, false, true, true), [Load(VERDICT, verdict)]);
    AfterLast(c, h, P6, Load(VERDICT, verdict));
  }

  lemma ReadEnds(c: Setup, h: nat, flag: Word, p: Word, e: Word)
    requires flag != 0
    ensures After(c, h, C0, ReadTrace(flag, p, e)) == C4(p, e)
  {
    AfterOne(c, h, C0, Load(FLAG, flag), [Fence(true, false, true, true), Load(PAYLOAD, p), Load(EXPECTED, e)]);
    AfterOne(c, h, C1, Fence(true, false, true, true), [Load(PAYLOAD, p), Load(EXPECTED, e)]);
    AfterOne(c, h, C2, Load(PAYLOAD, p), [Load(EXPECTED, e)]);
    AfterLast(c, h, C3(p), Load(EXPECTED, e));
  }

  lemma JudgeEnds(c: Setup, h: nat, p: Word, e: Word)
    ensures After(c, h, C4(p, e), JudgeTrace(p, e)) == C7
  {
    var verdict := Store(VERDICT, if p == e then 1 else 0);
    AfterOne(c, h, C4(p, e), verdict, [Fence(false, true, false, true), Store(DONE, 1)]);
    DoneEnds(c, h);
  }

  lemma DoneEnds(c: Setup, h: nat)
    ensures After(c, h, C5, [Fence(false, true, false, true), Store(DONE, 1)]) == C7
  {
    AfterOne(c, h, C5, Fence(false, true, false, true), [Store(DONE, 1)]);
    AfterLast(c, h, C6, Store(DONE, 1));
  }

  lemma ReceiveEnds(c: Setup, h: nat, waits: nat, flag: Word, p: Word, e: Word)
    requires flag != 0
    ensures After(c, h, C0, ReceiveTrace(waits, flag, p, e)) == C7
  {
    var idle := Polls(FLAG, seq(waits, _ => 0));
    PollsWait(c, h, C0, FLAG, seq(waits, _ => 0));
    AfterAppend(c, h, C0, idle, ReadTrace(flag, p, e));
    ReadEnds(c, h, flag, p, e);
    AfterAppend(c, h, C0, idle + ReadTrace(flag, p, e), JudgeTrace(p, e));
    JudgeEnds(c, h, p, e);
  }

  /** Core 0's start and core 1's start. */
  function StartTrace(c: Setup, h: nat, fields: seq<Loc>, idle: seq<Word>, f: Word): Trace {
    if h == 0 then PostTrace(c, fields, f) else TakeTrace(c, idle, f)
  }

  lemma StartEnds(c: Setup, h: nat, fields: seq<Loc>, idle: seq<Word>, f: Word)
    requires h < 2 && Fields(fields) && f != 0 && forall i | 0 <= i < |idle| :: idle[i] == 0
    ensures After(c, h, StartOf(h), StartTrace(c, h, fields, idle, f)) == Role(c, h)
  {
    if h == 0 { PostEnds(c, fields, f); } else { TakeEnds(c, idle, f); }
  }

  /** Whichever core it is on, the producer's whole trace is a side: any clearing, any idle polls, any wait. */
  lemma AnyProducer(c: Setup, fields: seq<Loc>, idle: seq<Word>, f: Word, e: Word, waits: seq<Word>, verdict: Word)
    requires c.producer < 2 && Fields(fields) && f != 0 && forall i | 0 <= i < |idle| :: idle[i] == 0
    requires forall i | 0 <= i < |waits| :: waits[i] != 1
    ensures Follows(c, c.producer,
                    StartTrace(c, c.producer, fields, idle, f) + SendTrace(e) + CheckTrace(waits, verdict))
  {
    var h := c.producer;
    var t := StartTrace(c, h, fields, idle, f);
    StartEnds(c, h, fields, idle, f);
    AfterAppend(c, h, StartOf(h), t, SendTrace(e));
    SendEnds(c, h, e);
    AfterAppend(c, h, StartOf(h), t + SendTrace(e), CheckTrace(waits, verdict));
    CheckEnds(c, h, waits, verdict);
    PointIsAfter(c, h, t + SendTrace(e) + CheckTrace(waits, verdict));
  }

  /** And the consumer's. */
  lemma AnyConsumer(
    c: Setup, fields: seq<Loc>, idle: seq<Word>, f: Word, waits: nat, flag: Word, p: Word, e: Word)
    requires c.producer < 2 && Fields(fields) && f != 0 && forall i | 0 <= i < |idle| :: idle[i] == 0
    requires flag != 0
    ensures Follows(c, 1 - c.producer,
                    StartTrace(c, 1 - c.producer, fields, idle, f) + ReceiveTrace(waits, flag, p, e))
  {
    var h := 1 - c.producer;
    var t := StartTrace(c, h, fields, idle, f);
    StartEnds(c, h, fields, idle, f);
    AfterAppend(c, h, StartOf(h), t, ReceiveTrace(waits, flag, p, e));
    ReceiveEnds(c, h, waits, flag, p, e);
    PointIsAfter(c, h, t + ReceiveTrace(waits, flag, p, e));
  }

  // ---- Sessions that run to the end ----

  /** The word of each field. */
  function Field(payload: Word, expected: Word, flag: Word, done: Word, verdict: Word, mailbox: Word, a: Loc): Word {
    if a == PAYLOAD then payload else if a == EXPECTED then expected else if a == FLAG then flag
    else if a == DONE then done else if a == VERDICT then verdict else if a == MAILBOX then mailbox else 0
  }

  /** Memory with the given fields. */
  function Memo(payload: Word, expected: Word, flag: Word, done: Word, verdict: Word, mailbox: Word): Loc -> Word {
    (a: Loc) => Field(payload, expected, flag, done, verdict, mailbox, a)
  }

  ghost predicate SameMemory(f: Loc -> Word, g: Loc -> Word) {
    forall a {:trigger f(a)} {:trigger g(a)} :: f(a) == g(a)
  }

  lemma StoredWord(p: Word, e: Word, f: Word, d: Word, v: Word, m: Word, a: Loc, w: Word)
    ensures forall b: Loc :: Updated(Memo(p, e, f, d, v, m), Store(a, w))(b)
                             == if b == a then w else Field(p, e, f, d, v, m, b)
  {
    var g := Memo(p, e, f, d, v, m);
    forall b: Loc ensures Updated(g, Store(a, w))(b) == if b == a then w else Field(p, e, f, d, v, m, b) {
      assert Updated(g, Store(a, w))(b) == Written(Store(a, w), b, g(b));
    }
  }

  /** What a store of each field does to the memory. */
  lemma Stored(p: Word, e: Word, f: Word, d: Word, v: Word, m: Word, w: Word)
    ensures SameMemory(Updated(Memo(p, e, f, d, v, m), Store(PAYLOAD, w)), Memo(w, e, f, d, v, m))
    ensures SameMemory(Updated(Memo(p, e, f, d, v, m), Store(EXPECTED, w)), Memo(p, w, f, d, v, m))
    ensures SameMemory(Updated(Memo(p, e, f, d, v, m), Store(FLAG, w)), Memo(p, e, w, d, v, m))
    ensures SameMemory(Updated(Memo(p, e, f, d, v, m), Store(DONE, w)), Memo(p, e, f, w, v, m))
    ensures SameMemory(Updated(Memo(p, e, f, d, v, m), Store(VERDICT, w)), Memo(p, e, f, d, w, m))
    ensures SameMemory(Updated(Memo(p, e, f, d, v, m), Store(MAILBOX, w)), Memo(p, e, f, d, v, w))
  {
    StoredWord(p, e, f, d, v, m, PAYLOAD, w);
    StoredWord(p, e, f, d, v, m, EXPECTED, w);
    StoredWord(p, e, f, d, v, m, FLAG, w);
    StoredWord(p, e, f, d, v, m, DONE, w);
    StoredWord(p, e, f, d, v, m, VERDICT, w);
    StoredWord(p, e, f, d, v, m, MAILBOX, w);
  }

  /** Append a trace that fits, knowing the memory it leaves. */
  lemma Append(x: Execution, h: nat, t: Trace, f: Loc -> Word, g: Loc -> Word)
    requires Sequential(x) && h < |x.prog| && Ends(x, f) && Fits(f, t) && SameMemory(UpdatedAll(f, t), g)
    ensures Sequential(ThenAll(x, h, t)) && Ends(ThenAll(x, h, t), g)
  {
    ThenAllSequential(x, h, t, f);
    var y := ThenAll(x, h, t);
    forall a ensures Final(y, a) == g(a) { assert Final(y, a) == UpdatedAll(f, t)(a); }
  }

  lemma FitsStore(f: Loc -> Word, g: Loc -> Word, op: Op, rest: Trace, last: Loc -> Word)
    requires (Reads(op) ==> ReadValue(op) == f(op.a)) && SameMemory(Updated(f, op), g)
    requires Fits(g, rest) && SameMemory(UpdatedAll(g, rest), last)
    ensures Fits(f, [op] + rest) && SameMemory(UpdatedAll(f, [op] + rest), last)
  {
    assert ([op] + rest)[1..] == rest;
    FitsSame(Updated(f, op), g, rest);
  }

  lemma {:induction false} FitsSame(f: Loc -> Word, g: Loc -> Word, t: Trace)
    requires SameMemory(f, g)
    ensures Fits(f, t) <==> Fits(g, t)
    ensures SameMemory(UpdatedAll(f, t), UpdatedAll(g, t))
    decreases |t|
  {
    if t != [] { FitsSame(Updated(f, t[0]), Updated(g, t[0]), t[1..]); }
  }

  lemma FitsNothing(f: Loc -> Word, g: Loc -> Word)
    requires SameMemory(f, g)
    ensures Fits(f, []) && SameMemory(UpdatedAll(f, []), g)
  {
  }

  /** The trace, run alone from memory f, leaves memory g. */
  ghost predicate Takes(f: Loc -> Word, t: Trace, g: Loc -> Word) { Fits(f, t) && SameMemory(UpdatedAll(f, t), g) }

  lemma PostFits(c: Setup)
    ensures Takes(Memo(0, 0, 0, 0, 0, 0), PostTrace(c, [], 1), Memo(0, c.expected, 0, 0, 0, 1))
  {
    var e := c.expected;
    var last := Memo(0, e, 0, 0, 0, 1);
    Stored(0, 0, 0, 0, 0, 0, e);
    Stored(0, e, 0, 0, 0, 0, 1);
    FitsNothing(last, last);
    FitsStore(last, last, Fence(false, true, false, true), [], last);
    assert [Fence(false, true, false, true)] + [] == [Fence(false, true, false, true)];
    FitsStore(Memo(0, e, 0, 0, 0, 0), last, Store(MAILBOX, 1), [Fence(false, true, false, true)], last);
    FitsStore(Memo(0, e, 0, 0, 0, 0), Memo(0, e, 0, 0, 0, 0), Optional(c.announced, FENCE_W_W),
              [Store(MAILBOX, 1), Fence(false, true, false, true)], last);
    FitsStore(Memo(0, 0, 0, 0, 0, 0), Memo(0, e, 0, 0, 0, 0), Store(EXPECTED, e),
              [Optional(c.announced, FENCE_W_W), Store(MAILBOX, 1), Fence(false, true, false, true)], last);
    assert Clears([]) == [];
    var t := [Store(EXPECTED, e), Optional(c.announced, FENCE_W_W), Store(MAILBOX, 1), Fence(false, true, false, true)];
    assert [Store(EXPECTED, e)] + t[1..] == t && PostTrace(c, [], 1) == [] + t == t;
  }

  lemma TakeFits(c: Setup)
    ensures Takes(Memo(0, c.expected, 0, 0, 0, 1), TakeTrace(c, [], 1), Memo(0, c.expected, 0, 0, 0, 1))
  {
    var f := Memo(0, c.expected, 0, 0, 0, 1);
    FitsNothing(f, f);
    FitsStore(f, f, Optional(c.awaited, FENCE_R_RW), [], f);
    assert [Optional(c.awaited, FENCE_R_RW)] + [] == [Optional(c.awaited, FENCE_R_RW)];
    FitsStore(f, f, Load(MAILBOX, 1), [Optional(c.awaited, FENCE_R_RW)], f);
    FitsStore(f, f, Load(MAILBOX, 1), [Load(MAILBOX, 1), Optional(c.awaited, FENCE_R_RW)], f);
    assert Polls(MAILBOX, []) == [];
    var t := [Load(MAILBOX, 1), Load(MAILBOX, 1), Optional(c.awaited, FENCE_R_RW)];
    assert [Load(MAILBOX, 1)] + t[1..] == t && TakeTrace(c, [], 1) == [] + t == t;
  }

  lemma SendFits(e: Word)
    ensures Takes(Memo(0, e, 0, 0, 0, 1), SendTrace(e), Memo(e, e, 1, 0, 0, 1))
  {
    var last := Memo(e, e, 1, 0, 0, 1);
    var sent := Memo(e, e, 0, 0, 0, 1);
    Stored(e, e, 0, 0, 0, 1, 1);
    Stored(0, e, 0, 0, 0, 1, e);
    var f := Memo(0, e, 0, 0, 0, 1);
    FitsNothing(last, last);
    FitsStore(sent, last, Store(FLAG, 1), [], last);
    assert [Store(FLAG, 1)] + [] == [Store(FLAG, 1)];
    FitsStore(sent, sent, Fence(false, true, false, true), [Store(FLAG, 1)], last);
    FitsStore(f, sent, Store(PAYLOAD, e), [Fence(false, true, false, true), Store(FLAG, 1)], last);
    FitsStore(f, f, Load(EXPECTED, e), [Store(PAYLOAD, e), Fence(false, true, false, true), Store(FLAG, 1)], last);
  }

  lemma ReadFits(e: Word)
    ensures Takes(Memo(e, e, 1, 0, 0, 1), ReadTrace(1, e, e), Memo(e, e, 1, 0, 0, 1))
  {
    var f := Memo(e, e, 1, 0, 0, 1);
    FitsNothing(f, f);
    FitsStore(f, f, Load(EXPECTED, e), [], f);
    assert [Load(EXPECTED, e)] + [] == [Load(EXPECTED, e)];
    FitsStore(f, f, Load(PAYLOAD, e), [Load(EXPECTED, e)], f);
    FitsStore(f, f, Fence(true, false, true, true), [Load(PAYLOAD, e), Load(EXPECTED, e)], f);
    FitsStore(f, f, Load(FLAG, 1), [Fence(true, false, true, true), Load(PAYLOAD, e), Load(EXPECTED, e)], f);
  }

  lemma JudgeFits(e: Word)
    ensures Takes(Memo(e, e, 1, 0, 0, 1), JudgeTrace(e, e), Memo(e, e, 1, 1, 1, 1))
  {
    var judged, last := Memo(e, e, 1, 0, 1, 1), Memo(e, e, 1, 1, 1, 1);
    Stored(e, e, 1, 0, 1, 1, 1);
    Stored(e, e, 1, 0, 0, 1, 1);
    FitsNothing(last, last);
    FitsStore(judged, last, Store(DONE, 1), [], last);
    assert [Store(DONE, 1)] + [] == [Store(DONE, 1)];
    FitsStore(judged, judged, Fence(false, true, false, true), [Store(DONE, 1)], last);
    var rest := [Fence(false, true, false, true), Store(DONE, 1)];
    FitsStore(Memo(e, e, 1, 0, 0, 1), judged, Store(VERDICT, 1), rest, last);
  }

  lemma CheckFits(e: Word)
    ensures Takes(Memo(e, e, 1, 1, 1, 1), CheckTrace([], 1), Memo(e, e, 1, 1, 1, 1))
  {
    var f := Memo(e, e, 1, 1, 1, 1);
    FitsNothing(f, f);
    FitsStore(f, f, Load(VERDICT, 1), [], f);
    assert [Load(VERDICT, 1)] + [] == [Load(VERDICT, 1)];
    FitsStore(f, f, Fence(true, false, true, true), [Load(VERDICT, 1)], f);
    FitsStore(f, f, Load(DONE, 1), [Fence(true, false, true, true), Load(VERDICT, 1)], f);
    assert Polls(DONE, []) == [];
  }

  /** Two traces of hart 0 and hart 1, then what the harts do in turn: h, g twice, h. */
  function Turns(x: Execution, h: nat, start0: Trace, start1: Trace, t1: Trace, t2: Trace, t3: Trace, t4: Trace)
      : (y: Execution)
    requires |x.prog| == 2 && h < 2
    ensures |y.prog| == 2
  {
    var x2 := ThenAll(ThenAll(x, 0, start0), 1, start1);
    ThenAll(ThenAll(ThenAll(ThenAll(x2, h, t1), 1 - h, t2), 1 - h, t3), h, t4)
  }

  /** Set-up, start of the job, message, verdict, check. */
  function Whole(c: Setup): (y: Execution)
    requires c.producer < 2
    ensures |y.prog| == 2
  {
    Turns(NotStarted(Memo(0, 0, 0, 0, 0, 0), 2), c.producer, PostTrace(c, [], 1), TakeTrace(c, [], 1),
          SendTrace(c.expected), ReadTrace(1, c.expected, c.expected), JudgeTrace(c.expected, c.expected),
          CheckTrace([], 1))
  }

  lemma TurnsSequential(x: Execution, h: nat, start0: Trace, start1: Trace, t1: Trace, t2: Trace, t3: Trace, t4: Trace,
                        f: seq<Loc -> Word>)
    requires Sequential(x) && |x.prog| == 2 && h < 2 && |f| == 7 && Ends(x, f[0])
    requires Takes(f[0], start0, f[1]) && Takes(f[1], start1, f[2])
    requires Takes(f[2], t1, f[3]) && Takes(f[3], t2, f[4]) && Takes(f[4], t3, f[5]) && Takes(f[5], t4, f[6])
    ensures Sequential(Turns(x, h, start0, start1, t1, t2, t3, t4))
  {
    var x1 := ThenAll(x, 0, start0);
    var x2 := ThenAll(x1, 1, start1);
    var x3 := ThenAll(x2, h, t1);
    var x4 := ThenAll(x3, 1 - h, t2);
    Append(x, 0, start0, f[0], f[1]);
    Append(x1, 1, start1, f[1], f[2]);
    Append(x2, h, t1, f[2], f[3]);
    Append(x3, 1 - h, t2, f[3], f[4]);
    Append(x4, 1 - h, t3, f[4], f[5]);
    Append(ThenAll(x4, 1 - h, t3), h, t4, f[5], f[6]);
  }

  lemma WholeIsSequential(c: Setup)
    requires c.producer < 2
    ensures Sequential(Whole(c))
  {
    var e := c.expected;
    var f := [Memo(0, 0, 0, 0, 0, 0), Memo(0, e, 0, 0, 0, 1), Memo(0, e, 0, 0, 0, 1), Memo(e, e, 1, 0, 0, 1),
              Memo(e, e, 1, 0, 0, 1), Memo(e, e, 1, 1, 1, 1), Memo(e, e, 1, 1, 1, 1)];
    NotStartedIsSequential(f[0], 2);
    PostFits(c);
    TakeFits(c);
    SendFits(e);
    ReadFits(e);
    JudgeFits(e);
    CheckFits(e);
    TurnsSequential(NotStarted(f[0], 2), c.producer, PostTrace(c, [], 1), TakeTrace(c, [], 1), SendTrace(e),
                    ReadTrace(1, e, e), JudgeTrace(e, e), CheckTrace([], 1), f);
  }

  lemma TurnsPrograms(x: Execution, h: nat, start0: Trace, start1: Trace, t1: Trace, t2: Trace, t3: Trace, t4: Trace)
    requires |x.prog| == 2 && h < 2 && x.prog[0] == [] && x.prog[1] == []
    ensures var y := Turns(x, h, start0, start1, t1, t2, t3, t4);
      && y.init == x.init
      && y.prog[h] == (if h == 0 then start0 else start1) + t1 + t4
      && y.prog[1 - h] == (if h == 0 then start1 else start0) + t2 + t3
  {
    var x1 := ThenAll(x, 0, start0);
    var x2 := ThenAll(x1, 1, start1);
    var x3 := ThenAll(x2, h, t1);
    var x4 := ThenAll(x3, 1 - h, t2);
    ThenAllPrograms(x, 0, start0);
    ThenAllPrograms(x1, 1, start1);
    ThenAllPrograms(x2, h, t1);
    ThenAllPrograms(x3, 1 - h, t2);
    ThenAllPrograms(x4, 1 - h, t3);
    ThenAllPrograms(ThenAll(x4, 1 - h, t3), h, t4);
    assert x2.prog[0] == start0 && x2.prog[1] == start1;
  }

  lemma WholePrograms(c: Setup)
    requires c.producer < 2
    ensures var h, g, e := c.producer, 1 - c.producer, c.expected;
      && Whole(c).init == Memo(0, 0, 0, 0, 0, 0)
      && Whole(c).prog[h] == StartTrace(c, h, [], [], 1) + SendTrace(e) + CheckTrace([], 1)
      && Whole(c).prog[g] == StartTrace(c, g, [], [], 1) + ReceiveTrace(0, 1, e, e)
  {
    var h, g, e := c.producer, 1 - c.producer, c.expected;
    var x := NotStarted(Memo(0, 0, 0, 0, 0, 0), 2);
    var t2, t3 := ReadTrace(1, e, e), JudgeTrace(e, e);
    TurnsPrograms(x, h, PostTrace(c, [], 1), TakeTrace(c, [], 1), SendTrace(e), t2, t3, CheckTrace([], 1));
    NoPolls(1, e, e);
    assert StartTrace(c, g, [], [], 1) + t2 + t3 == StartTrace(c, g, [], [], 1) + (t2 + t3);
  }

  lemma NoPolls(flag: Word, p: Word, e: Word)
    ensures ReceiveTrace(0, flag, p, e) == ReadTrace(flag, p, e) + JudgeTrace(p, e)
  {
    assert seq<Word>(0, _ => 0) == [];
    assert Polls(FLAG, seq(0, _ => 0)) == [];
  }

  lemma ProducerFollows(c: Setup)
    requires c.producer < 2
    ensures Follows(c, c.producer, StartTrace(c, c.producer, [], [], 1) + SendTrace(c.expected) + CheckTrace([], 1))
  {
    AnyProducer(c, [], [], 1, c.expected, [], 1);
  }

  lemma ConsumerFollows(c: Setup)
    requires c.producer < 2
    ensures Follows(c, 1 - c.producer,
                    StartTrace(c, 1 - c.producer, [], [], 1) + ReceiveTrace(0, 1, c.expected, c.expected))
  {
    AnyConsumer(c, [], [], 1, 0, 1, c.expected, c.expected);
  }

  lemma WholeFollows(c: Setup, h: nat)
    requires c.producer < 2 && h < 2
    ensures Follows(c, h, Whole(c).prog[h])
  {
    WholePrograms(c);
    if h == c.producer { ProducerFollows(c); } else { ConsumerFollows(c); }
  }

  /** In both directions, for every expected value and with or without the fences round the post, there is a session
      that runs to its end: the consumer stores the verdict 1 and the producer reads it. */
  lemma SessionRuns(c: Setup)
    requires c.producer < 2
    ensures Session(Whole(c), c)
    ensures Whole(c).prog[c.producer]
            == StartTrace(c, c.producer, [], [], 1) + SendTrace(c.expected) + CheckTrace([], 1)
  {
    WholeIsSequential(c);
    SequentialIsAllowed(Whole(c));
    WholePrograms(c);
    forall h: nat | h < 2 ensures Follows(c, h, Whole(c).prog[h]) { WholeFollows(c, h); }
  }
}
