/** The one-word mailbox through which a hart hands functions to core 1's park loop. Core 1 reads the word twice
    per job, once to test it and once to call through it, and clears it only after the job has returned; posts
    may land between any two of those steps. All accesses are to one word, so interleaving them is exact. */
module Mailbox {
  /** A function pointer; 0 is null. */
  type Fn = nat

  /** Where core 1 stands in its loop. */
  datatype Point =
    | Booting       // before g_core1_smode_ready = 1
    | Polling       // while (g_smode_target == 0) wfi
    | Tested        // the test saw a function; the call has not loaded it yet
    | Inside        // the job is running
    | Signalled     // the job has done its last store (its done flag); g_smode_target = 0 is still to come

  /** `posted`, `called` and `calls` are the history: every function posted, every function called, and for each
      call how many posts had been made before the one in the word. `clashes` counts the posts that found the
      word occupied. */
  datatype State = State(
    target: Fn, point: Point,
    posted: seq<Fn>, called: seq<Fn>, calls: seq<nat>, clashes: nat)

  datatype Event =
    | Ready         // core 1: g_core1_smode_ready = 1
    | Poll          // core 1: load the word for the test
    | Call          // core 1: load the word again and jump to it
    | Signal        // the job stores its done flag
    | Clear         // core 1: g_smode_target = 0
    | Post(f: Fn)   // any other hart: g_smode_target = f, once it has seen core 1 ready

  const START := State(0, Booting, [], [], [], 0)

  predicate Possible(s: State, e: Event) {
    match e
    case Ready => s.point == Booting
    case Poll => s.point == Polling
    case Call => s.point == Tested
    case Signal => s.point == Inside
    case Clear => s.point == Signalled
    case Post(f) => s.point != Booting && f != 0
  }

  /** How many posts were made before the one the word holds. */
  function LastPost(s: State): nat { if s.posted == [] then 0 else |s.posted| - 1 }

  function Step(s: State, e: Event): State
    requires Possible(s, e)
  {
    match e
    case Ready => s.(point := Polling)
    case Poll => if s.target == 0 then s else s.(point := Tested)
    case Call => s.(point := Inside, called := s.called + [s.target], calls := s.calls + [LastPost(s)])
    case Signal => s.(point := Signalled)
    case Clear => s.(point := Polling, target := 0)
    case Post(f) => s.(target := f, posted := s.posted + [f], clashes := s.clashes + if s.target == 0 then 0 else 1)
  }

  predicate Runs(s: State, es: seq<Event>)
    decreases |es|
  {
    es == [] || (Possible(s, es[0]) && Runs(Step(s, es[0]), es[1..]))
  }

  function Run(s: State, es: seq<Event>): State
    requires Runs(s, es)
    decreases |es|
  {
    if es == [] then s else Run(Step(s, es[0]), es[1..])
  }

  predicate Busy(s: State) { s.point == Inside || s.point == Signalled }

  /** The word holds a job core 1 has yet to call. */
  predicate Pending(s: State) { s.target != 0 && !Busy(s) }

  predicate Increasing(calls: seq<nat>) { forall i, j | 0 <= i < j < |calls| :: calls[i] < calls[j] }

  predicate Invariant(s: State) {
    && (s.point == Tested || Busy(s) ==> s.target != 0)
    && (s.target != 0 ==> s.posted != [] && s.target == s.posted[|s.posted| - 1])
    && (forall i | 0 <= i < |s.posted| :: s.posted[i] != 0)
    && |s.called| == |s.calls|
    && (forall i | 0 <= i < |s.calls| :: s.calls[i] < |s.posted| && s.called[i] == s.posted[s.calls[i]])
    && Increasing(s.calls)
    && (Pending(s) ==> forall i | 0 <= i < |s.calls| :: s.calls[i] < |s.posted| - 1)
    && |s.posted| == |s.called| + s.clashes + (if Pending(s) then 1 else 0)
  }

  lemma StepKeeps(s: State, e: Event)
    requires Invariant(s) && Possible(s, e)
    ensures Invariant(Step(s, e))
  {
    var t := Step(s, e);
    match e {
      case Post(f) => assert forall i | 0 <= i < |s.posted| :: t.posted[i] == s.posted[i];
      case _ =>
    }
  }

  lemma {:induction false} RunKeeps(s: State, es: seq<Event>)
    requires Invariant(s) && Runs(s, es)
    ensures Invariant(Run(s, es))
    decreases |es|
  {
    if es != [] {
      StepKeeps(s, es[0]);
      RunKeeps(Step(s, es[0]), es[1..]);
    }
  }

  function Posts(es: seq<Event>): (fs: seq<Fn>) {
    if es == [] then [] else (if es[0].Post? then [es[0].f] else []) + Posts(es[1..])
  }

  lemma {:induction false} PostedIsPosts(s: State, es: seq<Event>)
    requires Runs(s, es)
    ensures Run(s, es).posted == s.posted + Posts(es)
    decreases |es|
  {
    if es != [] {
      PostedIsPosts(Step(s, es[0]), es[1..]);
      assert Step(s, es[0]).posted == s.posted + if es[0].Post? then [es[0].f] else [];
    }
  }

  /** Whatever the interleaving, core 1 never calls null, and what it calls is picked out of what was posted by a
      strictly increasing list of positions: in order, and each post at most once. */
  lemma JobsAreASubsequence(es: seq<Event>)
    requires Runs(START, es)
    ensures var s := Run(START, es); var posts := Posts(es);
      && |s.calls| == |s.called| && Increasing(s.calls)
      && forall i | 0 <= i < |s.called| ::
           s.called[i] != 0 && s.calls[i] < |posts| && s.called[i] == posts[s.calls[i]]
  {
    RunKeeps(START, es);
    PostedIsPosts(START, es);
    assert [] + Posts(es) == Posts(es);
  }

  /** How many posts of the run found the word occupied. */
  function Clashes(s: State, es: seq<Event>): (n: nat)
    requires Runs(s, es)
    decreases |es|
  {
    if es == [] then 0
    else (if es[0].Post? && s.target != 0 then 1 else 0) + Clashes(Step(s, es[0]), es[1..])
  }

  lemma {:induction false} ClashesCounted(s: State, es: seq<Event>)
    requires Runs(s, es)
    ensures Run(s, es).clashes == s.clashes + Clashes(s, es)
    decreases |es|
  {
    if es != [] { ClashesCounted(Step(s, es[0]), es[1..]); }
  }

  /** Every post is called, or still pending, or paid for by a post that found the word occupied: each such post
      loses exactly one job, its own or the one it overwrote. */
  lemma PostsAreConserved(es: seq<Event>)
    requires Runs(START, es)
    ensures var s := Run(START, es);
      |Posts(es)| == |s.called| + Clashes(START, es) + if Pending(s) then 1 else 0
  {
    RunKeeps(START, es);
    PostedIsPosts(START, es);
    assert [] + Posts(es) == Posts(es);
    ClashesCounted(START, es);
  }

  lemma {:induction false} IncreasingFromZero(calls: seq<nat>, i: nat)
    requires Increasing(calls) && i < |calls|
    ensures i <= calls[i]
  {
    if i > 0 { IncreasingFromZero(calls, i - 1); }
  }

  lemma {:induction false} IncreasingRoom(calls: seq<nat>, i: nat, n: nat)
    requires Increasing(calls) && i < |calls| && calls[|calls| - 1] < n
    ensures calls[i] + (|calls| - i) <= n
    decreases |calls| - i
  {
    if i + 1 < |calls| { IncreasingRoom(calls, i + 1, n); }
  }

  function Waiting(s: State): (fs: seq<Fn>) { if Pending(s) then [s.target] else [] }

  lemma CallsFillUp(s: State)
    requires Invariant(s) && s.clashes == 0
    ensures s.called + Waiting(s) == s.posted
  {
    var n := |s.called|;
    forall i | 0 <= i < n ensures s.called[i] == s.posted[i] {
      IncreasingFromZero(s.calls, i);
      IncreasingRoom(s.calls, i, n);
    }
  }

  /** No posted job is overwritten or erased before core 1 has called it exactly when every post found the mailbox
      empty: the functions called, and the one still waiting if any, are then the functions posted, in order. */
  lemma NothingLostIffPostedWhenEmpty(es: seq<Event>)
    requires Runs(START, es)
    ensures Clashes(START, es) == 0 <==> Run(START, es).called + Waiting(Run(START, es)) == Posts(es)
  {
    var s := Run(START, es);
    RunKeeps(START, es);
    PostedIsPosts(START, es);
    assert [] + Posts(es) == Posts(es);
    ClashesCounted(START, es);
    if s.clashes == 0 { CallsFillUp(s); }
  }

  /** Post number k is called somewhere in the state's past. */
  predicate Served(s: State, k: nat) { k in s.calls }

  /** A job that has not been called and that the word does not offer is never called. */
  lemma {:induction false} MissedStaysMissed(s: State, es: seq<Event>, k: nat)
    requires Invariant(s) && Runs(s, es) && k < |s.posted| && !Served(s, k)
    requires k == |s.posted| - 1 ==> !Pending(s)
    ensures !Served(Run(s, es), k)
    decreases |es|
  {
    if es != [] {
      StepKeeps(s, es[0]);
      MissedStaysMissed(Step(s, es[0]), es[1..], k);
    }
  }

  /** Post number k is called in no continuation. */
  ghost predicate Doomed(s: State, k: nat) { forall es | Runs(s, es) :: !Served(Run(s, es), k) }

  lemma CalledNext(s: State)
    requires Invariant(s) && Pending(s) && s.point != Booting
    ensures !Doomed(s, |s.posted| - 1)
  {
    var u := if s.point == Tested then s else Step(s, Poll);
    assert Runs(u, [Call]) && Run(u, [Call]) == Step(u, Call);
    assert Step(u, Call).calls[|u.calls|] == |s.posted| - 1;
    if s.point == Polling {
      var es := [Poll, Call];
      assert es[1..] == [Call];
      assert Runs(s, es) && Run(s, es) == Step(u, Call);
    }
  }

  /** A job is doomed from the moment it is posted exactly when core 1 is then between calling a job and clearing
      the word — including after the running job has signalled that it is done. */
  lemma DoomedIffBusy(s: State, f: Fn)
    requires Invariant(s) && Possible(s, Post(f))
    ensures Doomed(Step(s, Post(f)), |s.posted|) <==> Busy(s)
  {
    var t := Step(s, Post(f));
    StepKeeps(s, Post(f));
    if Busy(s) {
      forall es | Runs(t, es) ensures !Served(Run(t, es), |s.posted|) {
        MissedStaysMissed(t, es, |s.posted|);
      }
    } else {
      CalledNext(t);
    }
  }

  /** A poster that waits for the previous job's done flag can still post too early: the word is cleared after
      the flag is stored. Both posts are made, neither overwrites a waiting job, and one is never called. */
  lemma WaitingForDoneLosesAJob(f: Fn, g: Fn)
    requires f != 0 && g != 0
    ensures var es := [Ready, Post(f), Poll, Call, Signal, Post(g), Clear];
      Runs(START, es) && Posts(es) == [f, g] && Run(START, es).called == [f] && Run(START, es).target == 0
  {
    var s1 := Step(START, Ready);
    var s2 := Step(s1, Post(f));
    var s3 := Step(s2, Poll);
    var s4 := Step(s3, Call);
    var s5 := Step(s4, Signal);
    var s6 := Step(s5, Post(g));
    assert Runs(s6, [Clear]) && Run(s6, [Clear]) == Step(s6, Clear);
    assert Runs(s5, [Post(g), Clear]) && Run(s5, [Post(g), Clear]) == Run(s6, [Clear]);
    assert Posts([Clear]) == [];
    var e4 := [Signal, Post(g), Clear];
    assert e4[1..] == [Post(g), Clear];
    assert Posts([Post(g), Clear]) == [g];
    assert Runs(s4, e4) && Run(s4, e4) == Step(s6, Clear) && Posts(e4) == [g];
    var e3 := [Call, Signal, Post(g), Clear];
    assert e3[1..] == e4;
    var e2 := [Poll, Call, Signal, Post(g), Clear];
    assert e2[1..] == e3;
    assert Runs(s2, e2) && Run(s2, e2) == Step(s6, Clear) && Posts(e2) == [g];
    var e1 := [Post(f), Poll, Call, Signal, Post(g), Clear];
    assert e1[1..] == e2;
    var e0 := [Ready, Post(f), Poll, Call, Signal, Post(g), Clear];
    assert e0[1..] == e1;
  }
}
