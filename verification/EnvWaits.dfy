/** sys_wait over runs: the caller sleeps, stays asleep as long as the environment it waits for is not
    released, and is made ready by that release. */
module EnvWaits {
  import opened Options
  import opened EnvIds
  import opened EnvModel

  /** cur sleeps in sys_wait(id), and the n-th environment of slot EnvX(id) is in use under that id. */
  ghost predicate WaitsOn(s: State, cur: nat, id: int, n: nat)
    requires Shape(s) && cur < NSLOTS
  {
    && s.envs[cur].status == Sleeping && s.envs[cur].waitId == id && s.waits[cur] == Some(Wait(id, n))
    && s.envs[EnvX(id)].status != Free && s.envs[EnvX(id)].id == id && s.allocs[EnvX(id)] == n
  }

  /** sys_wait with the id of an environment in use: the caller sleeps on it and nothing else
      changes. */
  lemma WaitSleeps(s: State, cur: nat, id: int, x: nat)
    requires Inv(s) && cur < NSLOTS && s.envs[cur].status == Running && x < NSLOTS
    requires id > 0 && s.envs[EnvX(id)].status != Free && s.envs[EnvX(id)].id == id
    ensures var s' := Apply(s, SysWait(cur, id));
            && WaitsOn(s', cur, id, s.allocs[EnvX(id)]) && s'.free == s.free && s'.allocs == s.allocs && s'.used == s.used
            && s'.envs[x].id == s.envs[x].id && (x != cur ==> s'.envs[x] == s.envs[x] && s'.waits[x] == s.waits[x])
  {
  }

  /** A step that neither releases the caller or the environment it waits for, nor sets the caller's
      status. */
  predicate Leaves(step: Step, cur: nat, t: nat) {
    match step
    case Release(e) => e != cur && e != t
    case SetStatus(e, _, _) => e != cur
    case _ => true
  }

  lemma WaitStays(s: State, step: Step, cur: nat, id: int, n: nat)
    requires Inv(s) && Enabled(s, step) && cur < NENV && WaitsOn(s, cur, id, n) && Leaves(step, cur, EnvX(id))
    ensures WaitsOn(Apply(s, step), cur, id, n)
  {
    assert WaitOk(s.envs, s.allocs, s.waits, cur);
    match step {
      case Alloc(parent, kind) =>
        if s.free != [] {
          assert s.envs[s.free[0]].status == Free;
        }
      case Release(e) =>
        assert SlotOk(s.envs, s.allocs, s.used, e) && SlotOk(s.envs, s.allocs, s.used, EnvX(id));
        IdsApart(s, e, EnvX(id));
        ReleaseWakes(s, e, cur);
        ReleaseWakes(s, e, EnvX(id));
      case SysWait(_, _) =>
      case SetStatus(_, _, _) =>
    }
  }

  /** Any run of such steps leaves it asleep. */
  lemma {:induction false} WaitLasts(s: State, steps: seq<Step>, cur: nat, id: int, n: nat)
    requires Inv(s) && CanRun(s, steps) && cur < NENV && WaitsOn(s, cur, id, n)
    requires forall k :: 0 <= k < |steps| ==> Leaves(steps[k], cur, EnvX(id))
    ensures Inv(Run(s, steps)) && WaitsOn(Run(s, steps), cur, id, n)
    decreases |steps|
  {
    if steps != [] {
      StepKeeps(s, steps[0]);
      WaitStays(s, steps[0], cur, id, n);
      forall k | 0 <= k < |steps[1..]| ensures Leaves(steps[1..][k], cur, EnvX(id)) {
        assert steps[1..][k] == steps[k + 1];
      }
      WaitLasts(Apply(s, steps[0]), steps[1..], cur, id, n);
    }
  }

  /** sys_wait(id) lasts exactly until that environment is released: over any run in between the
      caller sleeps on it, and its release makes the caller ready. */
  lemma WaitEnds(s: State, cur: nat, id: int, steps: seq<Step>)
    requires Inv(s) && cur < NENV && s.envs[cur].status == Running
    requires id > 0 && s.envs[EnvX(id)].status != Free && s.envs[EnvX(id)].id == id
    requires CanRun(DoWait(s, cur, id), steps) && forall k :: 0 <= k < |steps| ==> Leaves(steps[k], cur, EnvX(id))
    ensures var s2 := Run(DoWait(s, cur, id), steps); WaitsOn(s2, cur, id, s.allocs[EnvX(id)]) && Enabled(s2, Release(EnvX(id)))
    ensures EnvX(id) != cur ==>
              var s2 := Run(DoWait(s, cur, id), steps); var s3 := Apply(s2, Release(EnvX(id)));
              s3.envs[cur] == s2.envs[cur].(status := Runnable, waitId := -1) && s3.waits[cur] == None
  {
    var t := EnvX(id);
    WaitKeeps(s, cur, id);
    WaitSleeps(s, cur, id, t);
    WaitLasts(DoWait(s, cur, id), steps, cur, id, s.allocs[t]);
    ReleaseWakes(Run(DoWait(s, cur, id), steps), t, cur);
  }
}
