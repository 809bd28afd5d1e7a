/** The round-robin search of kern/sched.c: the circular order of user slots, which environment a
    search finds, and how long a runnable environment can be passed over. */
module SchedSearch {
  import opened Options
  import opened EnvIds
  import opened EnvModel

  /** Slots that the search visits. */
  const USERS: nat := 1022

  predicate UserSlot(i: int) {
    NKTHREADS <= i < NENV
  }

  /** The k-th slot in circular order from a start. */
  function Pos(start: nat, k: nat): (r: nat)
    requires UserSlot(start) && k < USERS
    ensures UserSlot(r)
  {
    if start + k < NENV then start + k else start + k - USERS
  }

  /** How far a slot is behind a start. */
  function Dist(start: nat, i: nat): (k: nat)
    requires UserSlot(start) && UserSlot(i)
    ensures k < USERS && Pos(start, k) == i
  {
    if i >= start then i - start else i - start + USERS
  }

  predicate Ready(envs: seq<Env>, i: nat) {
    i < |envs| && envs[i].status == Runnable && envs[i].kind != KernelThread
  }

  /** The first ready slot in circular order is k places behind the start. */
  ghost predicate FirstReady(envs: seq<Env>, start: nat, k: nat)
    requires UserSlot(start)
  {
    k < USERS && Ready(envs, Pos(start, k)) && forall j: nat :: j < k ==> !Ready(envs, Pos(start, j))
  }

  ghost predicate AnyReady(envs: seq<Env>) {
    exists i :: UserSlot(i) && Ready(envs, i)
  }

  /** Where the search ends without a ready environment. */
  function LastOf(start: nat): nat
    requires UserSlot(start)
  {
    if start == 2 then 1023 else start - 1
  }

  /** One switch on a CPU from one user environment to another, with the table the search saw. */
  datatype Switch = Switch(envs: seq<Env>, cur: nat, next: nat)

  ghost predicate Switches(w: Switch) {
    UserSlot(w.cur) && UserSlot(w.next) && w.next != w.cur && FirstReady(w.envs, w.cur, Dist(w.cur, w.next))
  }

  ghost predicate Consecutive(ws: seq<Switch>) {
    && (forall i :: 0 <= i < |ws| ==> Switches(ws[i]))
    && (forall i, j {:trigger ws[i].next, ws[j].cur} :: 0 <= i && j == i + 1 && j < |ws| ==> ws[j].cur == ws[i].next)
  }

  /** Passing over a ready environment brings the search nearer to it. */
  lemma Approaches(w: Switch, x: nat)
    requires Switches(w) && UserSlot(x) && Ready(w.envs, x) && w.next != x && w.cur != x
    ensures Dist(w.next, x) < Dist(w.cur, x)
  {
    var k, d := Dist(w.cur, w.next), Dist(w.cur, x);
    assert Pos(w.cur, d) == x && Pos(w.cur, k) == w.next;
  }

  /** Round robin is fair: a ready environment is chosen within as many consecutive user-to-user
      switches as it is slots behind the first one, whatever else changes in the table meanwhile. */
  lemma {:induction false} Fair(ws: seq<Switch>, x: nat) returns (i: nat)
    requires Consecutive(ws) && UserSlot(x) && ws != [] && ws[0].cur != x
    requires forall j :: 0 <= j < |ws| ==> Ready(ws[j].envs, x)
    requires |ws| >= Dist(ws[0].cur, x)
    ensures i < |ws| && i < Dist(ws[0].cur, x) < NENV - NKTHREADS && ws[i].next == x
    decreases |ws|
  {
    if ws[0].next == x {
      return 0;
    }
    Approaches(ws[0], x);
    assert ws[1].cur == ws[0].next;
    i := Fair(ws[1..], x);
    i := i + 1;
  }
}
