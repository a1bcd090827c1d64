/** Core 0 clears the shared fields and then posts the job (`g_p4 = 0; wake_core1_smode(...)`). Where the clearing
    stores perform before what comes after, an execution with them is an execution from cleared memory: the stores can
    be sent to unused words without any load noticing. A fence w,w before the post sees to that, for a job that starts
    with an atomic access; a job that starts with a load needs a fence r,rw as well. */
module Clearing {
  import opened Words
  import opened Rvwmo
  import opened Handshake

  /** The first `setup` operations of hart 0 clear fields; every word the programs use lies below `spare`. */
  datatype Prologue = Prologue(setup: nat, spare: Loc)

  predicate IsClear(p: Prologue, h: nat, i: nat, op: Op) { h == 0 && i < p.setup && op.Store? && op.v == 0 }

  ghost predicate Clears(x: Execution, p: Prologue, n: nat)
    requires IsOrder(x) && n < |x.gmo|
  {
    IsClear(p, x.gmo[n].hart, x.gmo[n].i, At(x, n))
  }

  predicate Below(t: Trace, spare: Loc) { forall i | 0 <= i < |t| && IsMem(t[i]) :: t[i].a < spare }

  // ---- The execution from cleared memory ----

  function Moved(p: Prologue, h: nat, i: nat, op: Op): Op {
    if IsClear(p, h, i, op) then Store(p.spare + op.a, 0) else op
  }

  function MovedTrace(p: Prologue, h: nat, t: Trace): (r: Trace)
    ensures |r| == |t| && forall i | 0 <= i < |t| :: r[i] == Moved(p, h, i, t[i])
  {
    seq(|t|, i requires 0 <= i < |t| => Moved(p, h, i, t[i]))
  }

  predicate ClearsAt(x: Execution, p: Prologue, i: nat, a: Loc) {
    |x.prog| > 0 && i < |x.prog[0]| && IsClear(p, 0, i, x.prog[0][i]) && x.prog[0][i].a == a
  }

  ghost predicate Cleared(x: Execution, p: Prologue, a: Loc) { exists i: nat :: ClearsAt(x, p, i, a) }

  ghost function InitialValue(x: Execution, p: Prologue, a: Loc): Word { if Cleared(x, p, a) then 0 else x.init(a) }

  ghost function FromCleared(x: Execution, p: Prologue): (y: Execution)
    ensures y.gmo == x.gmo && |y.prog| == |x.prog|
    ensures forall h | 0 <= h < |x.prog| :: y.prog[h] == MovedTrace(p, h, x.prog[h])
  {
    Execution(
      (a: Loc) => InitialValue(x, p, a),
      seq(|x.prog|, h requires 0 <= h < |x.prog| => MovedTrace(p, h, x.prog[h])),
      x.gmo)
  }

  /** A clearing store performs before every other store of its word. */
  ghost predicate ClearedFirst(x: Execution, p: Prologue)
    requires IsOrder(x)
  {
    forall s: nat, n: nat {:trigger Clears(x, p, s), At(x, n)} |
      && s < |x.gmo| && n < |x.gmo| && Clears(x, p, s) && !Clears(x, p, n)
      && Writes(At(x, n)) && At(x, n).a == At(x, s).a :: s < n
  }

  /** A load of a cleared word sees it cleared, or the word was zero already. */
  ghost predicate LoadsCleared(x: Execution, p: Prologue)
    requires IsOrder(x)
  {
    forall n: nat {:trigger At(x, n)} | n < |x.gmo| && Reads(At(x, n)) && Cleared(x, p, At(x, n).a) ::
      x.init(At(x, n).a) == 0 || SeesClear(x, p, n)
  }

  ghost predicate SeesClear(x: Execution, p: Prologue, n: nat)
    requires IsOrder(x) && n < |x.gmo|
  {
    exists s: nat {:trigger Clears(x, p, s)} :: s < |x.gmo| && Clears(x, p, s) && Visible(x, s, n)
  }

  ghost predicate Within(x: Execution, p: Prologue) {
    forall h {:trigger x.prog[h]} | 0 <= h < |x.prog| :: Below(x.prog[h], p.spare)
  }

  lemma SameEvents(x: Execution, p: Prologue)
    requires IsOrder(x)
    ensures IsOrder(FromCleared(x, p))
    ensures forall n: nat | n < |x.gmo| ::
              At(FromCleared(x, p), n) == Moved(p, x.gmo[n].hart, x.gmo[n].i, At(x, n))
  {
    var y := FromCleared(x, p);
    forall n | 0 <= n < |y.gmo| ensures IsEvent(y, y.gmo[n]) { assert IsEvent(x, x.gmo[n]); }
    forall m: nat, n: nat | m < n < |y.gmo| ensures Apart(y, m, n) { assert Apart(x, m, n); }
    forall e | IsEvent(y, e) ensures e in y.gmo { assert IsEvent(x, e); }
  }

  /** Moving the stores adds no ordering. */
  lemma PreservedBefore(p: Prologue, h: nat, t: Trace, i: nat, j: nat)
    requires i < j < |t| && Below(t, p.spare) && Preserved(MovedTrace(p, h, t), i, j)
    ensures Preserved(t, i, j)
  {
    var r := MovedTrace(p, h, t);
    if exists k: nat {:trigger r[k]} :: i < k < j && r[k].Fence? && Fenced(r, i, k, j) {
      var k: nat :| i < k < j && r[k].Fence? && Fenced(r, i, k, j);
      assert Fenced(t, i, k, j);
    }
  }

  lemma OrderKept(x: Execution, p: Prologue)
    requires Allowed(x) && Within(x, p)
    ensures IsOrder(FromCleared(x, p)) && PreservesOrder(FromCleared(x, p))
  {
    var y := FromCleared(x, p);
    SameEvents(x, p);
    forall m: nat, n: nat | m < |y.gmo| && n < |y.gmo| && y.gmo[m].hart == y.gmo[n].hart && y.gmo[m].i < y.gmo[n].i
        && Preserved(y.prog[y.gmo[m].hart], y.gmo[m].i, y.gmo[n].i)
      ensures m < n
    {
      PreservedBefore(p, x.gmo[m].hart, x.prog[x.gmo[m].hart], x.gmo[m].i, x.gmo[n].i);
    }
  }

  /** What a load sees, clearing stores aside, it sees in both. */
  lemma SameVisible(x: Execution, p: Prologue, k: nat, n: nat)
    requires IsOrder(x) && Within(x, p) && k < |x.gmo| && n < |x.gmo| && !Clears(x, p, n)
    ensures IsOrder(FromCleared(x, p))
    ensures Visible(FromCleared(x, p), k, n) <==> Visible(x, k, n) && !Clears(x, p, k)
  {
    SameEvents(x, p);
    assert Below(x.prog[x.gmo[n].hart], p.spare);
    assert IsEvent(x, x.gmo[n]);
  }

  /** Every load returns what it returned. */
  lemma LoadKept(x: Execution, p: Prologue, n: nat)
    requires Allowed(x) && Within(x, p) && ClearedFirst(x, p) && LoadsCleared(x, p)
    requires n < |x.gmo| && Reads(At(x, n))
    ensures IsOrder(FromCleared(x, p)) && At(FromCleared(x, p), n) == At(x, n) && LoadValue(FromCleared(x, p), n)
  {
    var y := FromCleared(x, p);
    SameEvents(x, p);
    assert LoadValue(x, n);
    forall k: nat | k < |x.gmo| ensures Visible(y, k, n) <==> Visible(x, k, n) && !Clears(x, p, k) {
      SameVisible(x, p, k, n);
    }
    if exists k: nat :: k < |x.gmo| && Visible(x, k, n) {
      var k: nat :| k < |x.gmo| && ReturnsFrom(x, k, n) && ReadValue(At(x, n)) == WriteValue(At(x, k));
      if Clears(x, p, k) {
        ClearRead(x, p, k, n);
      } else {
        assert ReturnsFrom(y, k, n);
      }
    } else {
      NeverCleared(x, p, n);
    }
  }

  /** A load that returns a clearing store sees no other, and memory is cleared. */
  lemma ClearRead(x: Execution, p: Prologue, k: nat, n: nat)
    requires IsOrder(x) && Within(x, p) && ClearedFirst(x, p) && k < |x.gmo| && n < |x.gmo| && Reads(At(x, n))
    requires Clears(x, p, k) && ReturnsFrom(x, k, n)
    ensures IsOrder(FromCleared(x, p)) && FromCleared(x, p).init(At(x, n).a) == 0
    ensures forall j: nat | j < |x.gmo| :: !Visible(FromCleared(x, p), j, n)
  {
    SameEvents(x, p);
    assert ClearsAt(x, p, x.gmo[k].i, At(x, n).a);
    forall j: nat | j < |x.gmo| ensures !Visible(FromCleared(x, p), j, n) {
      SameVisible(x, p, j, n);
      if !Clears(x, p, j) && Writes(At(x, j)) { assert At(x, j).a == At(x, k).a ==> k < j; }
    }
  }

  /** A load that sees no store at all reads zero if its word is cleared. */
  lemma NeverCleared(x: Execution, p: Prologue, n: nat)
    requires IsOrder(x) && LoadsCleared(x, p) && n < |x.gmo| && Reads(At(x, n))
    requires forall k: nat | k < |x.gmo| :: !Visible(x, k, n)
    ensures FromCleared(x, p).init(At(x, n).a) == x.init(At(x, n).a)
  {
    if Cleared(x, p, At(x, n).a) { assert !SeesClear(x, p, n); }
  }

  /** So the execution from cleared memory is allowed too, load for load. */
  lemma FromClearedAllowed(x: Execution, p: Prologue)
    requires Allowed(x) && Within(x, p) && ClearedFirst(x, p) && LoadsCleared(x, p)
    ensures Allowed(FromCleared(x, p))
  {
    var y := FromCleared(x, p);
    OrderKept(x, p);
    SameEvents(x, p);
    forall n: nat | n < |y.gmo| && Reads(At(y, n)) ensures LoadValue(y, n) { LoadKept(x, p, n); }
  }

  lemma NoLateClear(x: Execution, p: Prologue, m: nat, i: nat)
    requires IsOrder(x) && ClearedFirst(x, p) && m < i < |x.gmo| && !Clears(x, p, m) && Writes(At(x, m))
    ensures Clears(x, p, i) ==> At(x, i).a != At(x, m).a
  {
  }

  /** And ends in the same memory. */
  lemma SameMemory(x: Execution, p: Prologue, k: nat, a: Loc)
    requires IsOrder(x) && Within(x, p) && ClearedFirst(x, p) && k <= |x.gmo| && a < p.spare
    requires forall s: nat | s < |x.gmo| && Clears(x, p, s) && At(x, s).a == a :: s < k
    ensures IsOrder(FromCleared(x, p)) && Memory(FromCleared(x, p), k, a) == Memory(x, k, a)
  {
    var y := FromCleared(x, p);
    SameEvents(x, p);
    if n: nat :| n < k && Writes(At(y, n)) && At(y, n).a == a {
      var m := LastWrite(y, k, a, n);
      assert !Clears(x, p, m);
      forall i: nat | m < i < k && Writes(At(x, i)) ensures At(x, i).a != a {
        assert At(y, i) == Moved(p, x.gmo[i].hart, x.gmo[i].i, At(x, i));
        NoLateClear(x, p, m, i);
      }
      MemoryIsLatest(y, k, a, m);
      MemoryIsLatest(x, k, a, m);
    } else {
      MemoryIsInitial(y, k, a);
      OnlyClears(x, p, k, a);
    }
  }

  lemma OnlyClears(x: Execution, p: Prologue, k: nat, a: Loc)
    requires IsOrder(x) && k <= |x.gmo| && a < p.spare
    requires forall s: nat | s < |x.gmo| && Clears(x, p, s) && At(x, s).a == a :: s < k
    requires forall n: nat | n < k && Writes(At(x, n)) && At(x, n).a == a :: Clears(x, p, n)
    ensures Memory(x, k, a) == FromCleared(x, p).init(a)
  {
    if n: nat :| n < k && Writes(At(x, n)) && At(x, n).a == a {
      var m := LastWrite(x, k, a, n);
      MemoryIsLatest(x, k, a, m);
      assert ClearsAt(x, p, x.gmo[m].i, a);
    } else {
      MemoryIsInitial(x, k, a);
      ClearedHasStore(x, p, a);
    }
  }

  lemma ClearedHasStore(x: Execution, p: Prologue, a: Loc)
    requires IsOrder(x)
    ensures Cleared(x, p, a) ==>
              exists s: nat {:trigger Clears(x, p, s)} :: s < |x.gmo| && Clears(x, p, s) && At(x, s).a == a
  {
    if Cleared(x, p, a) {
      var i: nat :| ClearsAt(x, p, i, a);
      assert Clears(x, p, Position(x, Event(0, i)));
    }
  }

  // ---- The post ----

  /** Hart 0 clears fields, and stands behind a fence w,w when it posts the job; no other hart posts. */
  ghost predicate Posts(x: Execution, p: Prologue, mailbox: Loc) {
    && Allowed(x) && |x.prog| > 0 && x.init(mailbox) == 0 && SetsUp(x.prog[0], p, mailbox)
    && (forall i: nat, d: nat {:trigger BehindStores(x.prog[0], i, d)} |
          i < p.setup && d < |x.prog[0]| && Writes(x.prog[0][d]) && x.prog[0][d].a == mailbox ::
          BehindStores(x.prog[0], i, d))
    && (forall h: nat, i: nat {:trigger x.prog[h][i]} |
          0 < h < |x.prog| && i < |x.prog[h]| && Writes(x.prog[h][i]) :: x.prog[h][i].a != mailbox)
  }

  /** The first `setup` operations clear fields and do nothing else. */
  predicate SetsUp(t: Trace, p: Prologue, mailbox: Loc) {
    forall i: nat | i < p.setup && i < |t| && IsMem(t[i]) :: IsClear(p, 0, i, t[i]) && t[i].a != mailbox
  }

  /** An operation of another hart performs after a load of its own that saw the post. */
  ghost predicate AfterPost(x: Execution, mailbox: Loc, n: nat)
    requires IsOrder(x) && n < |x.gmo|
  {
    exists m: nat {:trigger At(x, m)} :: m < n && x.gmo[m].hart == x.gmo[n].hart && SawPost(At(x, m), mailbox)
  }

  predicate SawPost(op: Op, mailbox: Loc) { op.Load? && op.a == mailbox && op.v != 0 }

  /** The other harts use the cleared words only in their jobs. */
  ghost predicate JobsAfterPost(x: Execution, p: Prologue, mailbox: Loc)
    requires IsOrder(x)
  {
    forall n: nat {:trigger AfterPost(x, mailbox, n)} |
      n < |x.gmo| && x.gmo[n].hart != 0 && Cleared(x, p, At(x, n).a) :: AfterPost(x, mailbox, n)
  }

  lemma ClearBeforePosted(x: Execution, p: Prologue, mailbox: Loc, s: nat, n: nat)
    requires Posts(x, p, mailbox) && s < |x.gmo| && n < |x.gmo| && x.gmo[n].hart != 0
    requires Clears(x, p, s) && AfterPost(x, mailbox, n)
    ensures s < n
  {
    var m: nat :| m < n && x.gmo[m].hart == x.gmo[n].hart && SawPost(At(x, m), mailbox);
    var k := StoreReturned(x, m);
    var post := x.prog[x.gmo[k].hart][x.gmo[k].i];
    assert Writes(post) && post.a == mailbox && x.gmo[k].hart == 0;
    StoresInOrder(x, s, k);
  }

  /** With a fence w,w before the post the clearing comes first. */
  lemma PostOrdersClearing(x: Execution, p: Prologue, mailbox: Loc)
    requires Posts(x, p, mailbox) && JobsAfterPost(x, p, mailbox)
    ensures ClearedFirst(x, p) && LoadsCleared(x, p)
  {
    forall s: nat, n: nat | s < |x.gmo| && n < |x.gmo| && Clears(x, p, s) && !Clears(x, p, n)
        && Writes(At(x, n)) && At(x, n).a == At(x, s).a
      ensures s < n
    {
      WriteAfterClear(x, p, mailbox, s, n);
    }
    forall n: nat | n < |x.gmo| && Reads(At(x, n)) && Cleared(x, p, At(x, n).a) ensures SeesClear(x, p, n) {
      ReadSeesClear(x, p, mailbox, n);
    }
  }

  lemma ClearedBy(x: Execution, p: Prologue, n: nat, s: nat)
    requires IsOrder(x) && n < |x.gmo| && s < |x.gmo| && Clears(x, p, s) && At(x, n).a == At(x, s).a
    ensures Cleared(x, p, At(x, n).a)
  {
    assert ClearsAt(x, p, x.gmo[s].i, At(x, n).a);
  }

  lemma WriteAfterClear(x: Execution, p: Prologue, mailbox: Loc, s: nat, n: nat)
    requires Posts(x, p, mailbox) && JobsAfterPost(x, p, mailbox) && s < |x.gmo| && n < |x.gmo|
    requires Clears(x, p, s) && !Clears(x, p, n) && Writes(At(x, n)) && At(x, n).a == At(x, s).a
    ensures s < n
  {
    if x.gmo[n].hart == 0 {
      OwnStoreAfterClear(x, p, mailbox, s, n);
    } else {
      ClearedBy(x, p, n, s);
      assert AfterPost(x, mailbox, n);
      ClearBeforePosted(x, p, mailbox, s, n);
    }
  }

  /** A store of hart 0 on the same word follows the set-up. */
  lemma OwnStoreAfterClear(x: Execution, p: Prologue, mailbox: Loc, s: nat, n: nat)
    requires Allowed(x) && |x.prog| > 0 && SetsUp(x.prog[0], p, mailbox)
    requires s < |x.gmo| && n < |x.gmo| && x.gmo[n].hart == 0
    requires Clears(x, p, s) && !Clears(x, p, n) && Writes(At(x, n)) && At(x, n).a == At(x, s).a
    ensures s < n
  {
    assert x.gmo[s].i < p.setup <= x.gmo[n].i;
    assert Preserved(x.prog[x.gmo[s].hart], x.gmo[s].i, x.gmo[n].i);
  }

  lemma ReadSeesClear(x: Execution, p: Prologue, mailbox: Loc, n: nat)
    requires Posts(x, p, mailbox) && JobsAfterPost(x, p, mailbox)
    requires n < |x.gmo| && Reads(At(x, n)) && Cleared(x, p, At(x, n).a)
    ensures SeesClear(x, p, n)
  {
    var i: nat :| ClearsAt(x, p, i, At(x, n).a);
    var s := Position(x, Event(0, i));
    assert Clears(x, p, s);
    if x.gmo[n].hart == 0 {
      assert p.setup <= x.gmo[n].i;
    } else {
      assert AfterPost(x, mailbox, n);
      ClearBeforePosted(x, p, mailbox, s, n);
    }
    assert Visible(x, s, n);
  }

  // ---- When the job is behind the post ----

  /** Behind a load that saw the post and fence r,rw. */
  ghost predicate BehindPost(t: Trace, i: nat, mailbox: Loc) {
    exists j: nat {:trigger t[j]} :: j < |t| && SawPost(t[j], mailbox) && BehindLoads(t, j, i)
  }

  /** A job that has the fence may do anything. */
  lemma FencedJobs(x: Execution, p: Prologue, mailbox: Loc)
    requires Posts(x, p, mailbox)
    requires forall h: nat, i: nat {:trigger BehindPost(x.prog[h], i, mailbox)} |
               0 < h < |x.prog| && i < |x.prog[h]| && IsMem(x.prog[h][i]) && x.prog[h][i].a != mailbox ::
               BehindPost(x.prog[h], i, mailbox)
    ensures JobsAfterPost(x, p, mailbox)
  {
    forall n: nat | n < |x.gmo| && x.gmo[n].hart != 0 && Cleared(x, p, At(x, n).a) ensures AfterPost(x, mailbox, n) {
      var h, i := x.gmo[n].hart, x.gmo[n].i;
      MailboxNotCleared(x, p, mailbox);
      var t := x.prog[h];
      assert BehindPost(t, i, mailbox);
      var j: nat :| j < |t| && SawPost(t[j], mailbox) && BehindLoads(t, j, i);
      var m := Position(x, Event(h, j));
      LoadsInOrder(x, m, n);
    }
  }

  lemma MailboxNotCleared(x: Execution, p: Prologue, mailbox: Loc)
    requires Posts(x, p, mailbox)
    ensures !Cleared(x, p, mailbox)
  {
    if i: nat :| ClearsAt(x, p, i, mailbox) { assert IsMem(x.prog[0][i]); }
  }

  /** Behind a load that saw the post and that the call depends on. */
  ghost predicate Called(x: Execution, h: nat, i: nat, mailbox: Loc)
    requires IsOrder(x) && h < |x.prog|
  {
    exists j: nat {:trigger Controls(x, h, j)} ::
      j < i && j < |x.prog[h]| && SawPost(x.prog[h][j], mailbox) && Controls(x, h, j)
  }

  lemma CalledStoreAfterPost(x: Execution, mailbox: Loc, n: nat)
    requires IsOrder(x) && n < |x.gmo| && Writes(At(x, n)) && Called(x, x.gmo[n].hart, x.gmo[n].i, mailbox)
    ensures AfterPost(x, mailbox, n)
  {
    var h := x.gmo[n].hart;
    var j: nat :| j < x.gmo[n].i && j < |x.prog[h]| && SawPost(x.prog[h][j], mailbox) && Controls(x, h, j);
    var m := Position(x, Event(h, j));
    assert Apart(x, m, n);
    assert SawPost(At(x, m), mailbox);
  }

  /** A job that only stores and makes atomic accesses needs no fence: the call through the mailbox orders it. */
  lemma StoringJobs(x: Execution, p: Prologue, mailbox: Loc)
    requires Posts(x, p, mailbox)
    requires forall h: nat, i: nat {:trigger x.prog[h][i]} |
               0 < h < |x.prog| && i < |x.prog[h]| && IsMem(x.prog[h][i]) && x.prog[h][i].a != mailbox ::
               Writes(x.prog[h][i]) && Called(x, h, i, mailbox)
    ensures JobsAfterPost(x, p, mailbox)
  {
    MailboxNotCleared(x, p, mailbox);
    forall n: nat | n < |x.gmo| && x.gmo[n].hart != 0 && Cleared(x, p, At(x, n).a) ensures AfterPost(x, mailbox, n) {
      assert IsMem(x.prog[x.gmo[n].hart][x.gmo[n].i]);
      CalledStoreAfterPost(x, mailbox, n);
    }
  }
}
