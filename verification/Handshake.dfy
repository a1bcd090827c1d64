/** Flags under RVWMO: what a hart did before it announced a flag behind fence w,w is visible to everything another
    hart does behind a load that saw the flag and fence r,rw. All the two-hart protocols rest on this. */
module Handshake {
  import opened Words
  import opened Rvwmo

  const FENCE_W_W: Op := Fence(false, true, false, true)
  const FENCE_R_RW: Op := Fence(true, false, true, true)

  /** A fence that the program has or leaves out; left out, it orders nothing. */
  function Optional(present: bool, fence: Op): Op
    requires fence.Fence?
  {
    if present then fence else Fence(false, false, false, false)
  }

  /** A fence w,w stands between operations i and j. */
  ghost predicate BehindStores(t: Trace, i: nat, j: nat) {
    exists k {:trigger t[k]} :: i < k < j < |t| && t[k] == FENCE_W_W
  }

  /** A fence r,rw stands between operations i and j. */
  ghost predicate BehindLoads(t: Trace, i: nat, j: nat) {
    exists k {:trigger t[k]} :: i < k < j < |t| && t[k] == FENCE_R_RW
  }

  /** Operation d stores the value v to the flag. */
  predicate Raises(t: Trace, d: nat, flag: Loc, v: Word) {
    d < |t| && Writes(t[d]) && t[d].a == flag && WriteValue(t[d]) == v
  }

  lemma StoresInOrder(x: Execution, m: nat, n: nat)
    requires Allowed(x) && m < |x.gmo| && n < |x.gmo| && x.gmo[m].hart == x.gmo[n].hart
    requires Writes(At(x, m)) && Writes(At(x, n)) && BehindStores(x.prog[x.gmo[m].hart], x.gmo[m].i, x.gmo[n].i)
    ensures m < n
  {
    var t, i, j := x.prog[x.gmo[m].hart], x.gmo[m].i, x.gmo[n].i;
    var k {:trigger t[k]} :| i < k < j < |t| && t[k] == FENCE_W_W;
    assert Fenced(t, i, k, j);
    assert Preserved(x.prog[x.gmo[m].hart], x.gmo[m].i, x.gmo[n].i);
  }

  lemma LoadsInOrder(x: Execution, m: nat, n: nat)
    requires Allowed(x) && m < |x.gmo| && n < |x.gmo| && x.gmo[m].hart == x.gmo[n].hart
    requires At(x, m).Load? && BehindLoads(x.prog[x.gmo[m].hart], x.gmo[m].i, x.gmo[n].i)
    ensures m < n
  {
    var t, i, j := x.prog[x.gmo[m].hart], x.gmo[m].i, x.gmo[n].i;
    var k {:trigger t[k]} :| i < k < j < |t| && t[k] == FENCE_R_RW;
    assert Fenced(t, i, k, j);
    assert Preserved(x.prog[x.gmo[m].hart], x.gmo[m].i, x.gmo[n].i);
  }

  /** The store a load returns, when its value is not the initial one or some store is visible to it. */
  lemma StoreReturned(x: Execution, m: nat) returns (k: nat)
    requires Allowed(x) && m < |x.gmo| && At(x, m).Load?
    requires At(x, m).v != x.init(At(x, m).a) || exists n: nat :: n < |x.gmo| && Visible(x, n, m)
    ensures k < |x.gmo| && Visible(x, k, m) && At(x, m).v == WriteValue(At(x, k))
  {
    assert LoadValue(x, m);
    k :| k < |x.gmo| && ReturnsFrom(x, k, m) && ReadValue(At(x, m)) == WriteValue(At(x, k));
  }

  /** Only hart h raises the flag to v, and its operation s stands before each time it does, a fence w,w between. */
  ghost predicate Announces(prog: seq<Trace>, h: nat, s: nat, flag: Loc, v: Word) {
    forall g: nat, d: nat {:trigger Raises(prog[g], d, flag, v)} | g < |prog| && Raises(prog[g], d, flag, v) ::
      g == h && BehindStores(prog[h], s, d)
  }

  /** The load at position m saw a store of the flag: it is not the initial value, or an own store hides that. */
  ghost predicate SawStore(x: Execution, m: nat)
    requires IsOrder(x) && m < |x.gmo|
  {
    At(x, m).Load? && (At(x, m).v != x.init(At(x, m).a) || exists n: nat :: n < |x.gmo| && Visible(x, n, m))
  }

  /** The handshake: a store announced by the flag performs before whatever follows the load that saw it. */
  lemma AnnouncedIsBefore(x: Execution, s: nat, m: nat, n: nat)
    requires Allowed(x) && s < |x.gmo| && m < |x.gmo| && n < |x.gmo|
    requires Writes(At(x, s)) && SawStore(x, m) && x.gmo[s].hart != x.gmo[m].hart == x.gmo[n].hart
    requires Announces(x.prog, x.gmo[s].hart, x.gmo[s].i, At(x, m).a, At(x, m).v)
    requires BehindLoads(x.prog[x.gmo[m].hart], x.gmo[m].i, x.gmo[n].i)
    ensures s < n
  {
    var k := StoreReturned(x, m);
    assert Raises(x.prog[x.gmo[k].hart], x.gmo[k].i, At(x, m).a, At(x, m).v);
    StoresInOrder(x, s, k);
    LoadsInOrder(x, m, n);
  }

  /** A load to which store s is visible reads it, if every other store of the word performs before s. */
  lemma LastStoreIsRead(x: Execution, s: nat, n: nat)
    requires Allowed(x) && s < |x.gmo| && n < |x.gmo| && At(x, n).Load? && Visible(x, s, n)
    requires forall k: nat | k < |x.gmo| && Writes(At(x, k)) && At(x, k).a == At(x, n).a :: k <= s
    ensures At(x, n).v == WriteValue(At(x, s))
  {
    assert LoadValue(x, n);
  }

  // ---- The final read of a total ----

  /** Every other hart's stores to the word are announced to the load at position n. */
  ghost predicate AllAnnounced(x: Execution, n: nat, a: Loc)
    requires IsOrder(x) && n < |x.gmo|
  {
    forall s: nat {:trigger Announced(x, s, n)} |
      s < |x.gmo| && Writes(At(x, s)) && At(x, s).a == a && x.gmo[s].hart != x.gmo[n].hart :: Announced(x, s, n)
  }

  ghost predicate Announced(x: Execution, s: nat, n: nat)
    requires IsOrder(x) && s < |x.gmo| && n < |x.gmo|
  {
    exists m: nat {:trigger SawStore(x, m)} ::
      && m < |x.gmo| && x.gmo[m].hart == x.gmo[n].hart && SawStore(x, m)
      && Announces(x.prog, x.gmo[s].hart, x.gmo[s].i, At(x, m).a, At(x, m).v)
      && BehindLoads(x.prog[x.gmo[m].hart], x.gmo[m].i, x.gmo[n].i)
  }

  /** Whatever else the harts do: a load that is behind the announcements of all the others' stores to its word, and
      behind its own hart's, reads the final memory. */
  lemma FinalRead(x: Execution, n: nat)
    requires Allowed(x) && n < |x.gmo| && At(x, n).Load? && AllAnnounced(x, n, At(x, n).a)
    requires forall j: nat | j < |x.prog[x.gmo[n].hart]| && Writes(x.prog[x.gmo[n].hart][j])
               && x.prog[x.gmo[n].hart][j].a == At(x, n).a :: j < x.gmo[n].i
    ensures At(x, n).v == Memory(x, |x.gmo|, At(x, n).a)
  {
    forall s: nat | s < |x.gmo| && Writes(At(x, s)) && At(x, s).a == At(x, n).a ensures Visible(x, s, n) {
      if x.gmo[s].hart != x.gmo[n].hart {
        assert Announced(x, s, n);
        var m: nat :|
          && m < |x.gmo| && x.gmo[m].hart == x.gmo[n].hart && SawStore(x, m)
          && Announces(x.prog, x.gmo[s].hart, x.gmo[s].i, At(x, m).a, At(x, m).v)
          && BehindLoads(x.prog[x.gmo[m].hart], x.gmo[m].i, x.gmo[n].i);
        AnnouncedIsBefore(x, s, m, n);
      }
    }
    AllVisibleReadsFinal(x, n);
  }
}
