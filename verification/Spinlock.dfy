/** The spinlock of kern/spinlock.c: any number of CPUs, interleaved at single loads, stores and
    exchanges of the lock's two fields, with calls that may be misuses. */
module Spinlock {
  /** lk->cpu of a lock that nobody recorded. */
  const NOBODY: int := -1

  datatype Call = Lock | Unlock | Query

  /** Where a CPU is. `owner` says whether it is between its successful exchange and its releasing
      exchange; the code does not read it. */
  datatype Pc =
    | Idle(owner: bool)
    | LoadLocked(owner: bool, call: Call)
    | LoadCpu(owner: bool, call: Call)
    | Exchange(owner: bool)
    | StoreCpu(owner: bool)
    | ClearCpu(owner: bool)
    | Release(owner: bool)
    | Answer(owner: bool, yes: bool)
    | Panic(owner: bool, call: Call)

  datatype State = State(locked: bool, cpu: int, pcs: seq<Pc>)

  /** What follows the test of holding(). */
  function Decided(owner: bool, call: Call, held: bool): Pc {
    match call
    case Lock => if held then Panic(owner, Lock) else Exchange(owner)
    case Unlock => if held then ClearCpu(owner) else Panic(owner, Unlock)
    case Query => Answer(owner, held)
  }

  /** One step of CPU i; `call` is what it calls next if it is idle. */
  function Step(s: State, i: nat, call: Call): State
    requires i < |s.pcs|
  {
    match s.pcs[i]
    case Idle(owner) => s.(pcs := s.pcs[i := LoadLocked(owner, call)])
    case LoadLocked(owner, c) => s.(pcs := s.pcs[i := if s.locked then LoadCpu(owner, c) else Decided(owner, c, false)])
    case LoadCpu(owner, c) => s.(pcs := s.pcs[i := Decided(owner, c, s.cpu == i)])
    case Exchange(owner) => s.(locked := true, pcs := s.pcs[i := if s.locked then Exchange(owner) else StoreCpu(true)])
    case StoreCpu(owner) => s.(cpu := i, pcs := s.pcs[i := Idle(owner)])
    case ClearCpu(owner) => s.(cpu := NOBODY, pcs := s.pcs[i := Release(owner)])
    case Release(_) => s.(locked := false, pcs := s.pcs[i := Idle(false)])
    case Answer(owner, _) => s.(pcs := s.pcs[i := Idle(owner)])
    case Panic(_, _) => s
  }

  // ---------- invariant ----------

  /** The owner's name is in the lock except just after acquiring and just before releasing. */
  predicate Recorded(pc: Pc) {
    pc.owner && !pc.StoreCpu? && !pc.Release?
  }

  predicate PcOk(s: State, i: nat)
    requires i < |s.pcs|
  {
    var pc := s.pcs[i];
    && (pc.owner ==> s.locked)
    && (s.cpu == i <==> Recorded(pc))
    && (pc.Exchange? ==> !pc.owner)
    && (pc.StoreCpu? || pc.ClearCpu? || pc.Release? ==> pc.owner)
    && (pc.Answer? ==> pc.yes == pc.owner)
    && (pc.Panic? ==> pc.call == if pc.owner then Lock else Unlock)
  }

  /** Not both CPUs own the lock. */
  predicate Apart(s: State, i: nat, j: nat)
    requires i < |s.pcs| && j < |s.pcs|
  {
    i == j || !s.pcs[i].owner || !s.pcs[j].owner
  }

  ghost predicate Owned(s: State) {
    exists i :: 0 <= i < |s.pcs| && s.pcs[i].owner
  }

  ghost predicate Inv(s: State) {
    && (forall i: nat {:trigger PcOk(s, i)} :: i < |s.pcs| ==> PcOk(s, i))
    && (forall i: nat, j: nat {:trigger Apart(s, i, j)} :: i < |s.pcs| && j < |s.pcs| ==> Apart(s, i, j))
    && (s.locked ==> Owned(s))
    && (s.cpu == NOBODY || 0 <= s.cpu < |s.pcs|)
  }

  lemma StepKeeps(s: State, i: nat, call: Call)
    requires Inv(s) && i < |s.pcs|
    ensures Inv(Step(s, i, call))
  {
    var s' := Step(s, i, call);
    assert PcOk(s, i);
    forall j: nat | j < |s.pcs| ensures PcOk(s', j) {
      assert PcOk(s, j) && Apart(s, i, j);
    }
    forall j: nat, k: nat | j < |s.pcs| && k < |s.pcs| ensures Apart(s', j, k) {
      assert Apart(s, j, k) && PcOk(s, j) && PcOk(s, k);
    }
    if s'.locked {
      if s.locked {
        var o :| 0 <= o < |s.pcs| && s.pcs[o].owner;
        assert Apart(s, i, o);
        assert s'.pcs[o].owner;
      } else {
        assert s'.pcs[i].owner;
      }
    }
  }

  // ---------- runs ----------

  datatype Move = Move(cpu: nat, call: Call)

  ghost predicate Moves(ms: seq<Move>, n: nat) {
    forall k :: 0 <= k < |ms| ==> ms[k].cpu < n
  }

  /** The state after any interleaving. */
  function Run(s: State, ms: seq<Move>): (r: State)
    requires Moves(ms, |s.pcs|)
    ensures |r.pcs| == |s.pcs|
  {
    if ms == [] then s
    else
      var n := |ms| - 1;
      Step(Run(s, ms[..n]), ms[n].cpu, ms[n].call)
  }

  /** spin_initlock, with n CPUs outside. */
  function Init(n: nat): State {
    State(false, NOBODY, seq(n, i => Idle(false)))
  }

  lemma {:induction false} RunInv(n: nat, ms: seq<Move>)
    requires Moves(ms, n)
    ensures Inv(Run(Init(n), ms))
    decreases |ms|
  {
    if ms != [] {
      var k := |ms| - 1;
      RunInv(n, ms[..k]);
      StepKeeps(Run(Init(n), ms[..k]), ms[k].cpu, ms[k].call);
    }
  }

  /** Mutual exclusion, and the lock word says whether there is an owner. */
  lemma MutualExclusion(n: nat, ms: seq<Move>, i: nat, j: nat)
    requires Moves(ms, n) && i < n && j < n && i != j
    ensures var s := Run(Init(n), ms); !(s.pcs[i].owner && s.pcs[j].owner)
    ensures var s := Run(Init(n), ms); s.locked <==> Owned(s)
  {
    RunInv(n, ms);
    var s := Run(Init(n), ms);
    assert Apart(s, i, j);
    if Owned(s) {
      var o :| 0 <= o < |s.pcs| && s.pcs[o].owner;
      assert PcOk(s, o);
    }
  }

  /** holding(), evaluated by a CPU about itself, answers exactly whether it owns the lock; the
      panics come for a second acquisition or a release without ownership, and for nothing else. */
  lemma HoldingExact(n: nat, ms: seq<Move>, i: nat)
    requires Moves(ms, n) && i < n
    ensures var pc := Run(Init(n), ms).pcs[i]; pc.Answer? ==> pc.yes == pc.owner
    ensures var pc := Run(Init(n), ms).pcs[i]; pc.Panic? ==> (pc.owner <==> pc.call == Lock) && (!pc.owner <==> pc.call == Unlock)
    ensures var pc := Run(Init(n), ms).pcs[i]; (pc.Exchange? ==> !pc.owner) && (pc.ClearCpu? ==> pc.owner)
    ensures var s := Run(Init(n), ms); s.cpu == i ==> s.pcs[i].owner
  {
    RunInv(n, ms);
    assert PcOk(Run(Init(n), ms), i);
  }

  /** A CPU that calls spin_lock while it owns the lock panics in two more steps, wherever the other
      CPUs are: they cannot change what its test reads. */
  lemma RelockPanics(s: State, i: nat, call: Call)
    requires Inv(s) && i < |s.pcs| && s.pcs[i] == LoadLocked(true, Lock)
    ensures Step(Step(s, i, call), i, call).pcs[i] == Panic(true, Lock)
    ensures forall j: nat, c :: j < |s.pcs| && j != i ==> Step(s, j, c).locked && Step(s, j, c).cpu == i
  {
    assert PcOk(s, i);
    forall j: nat, c | j < |s.pcs| && j != i ensures Step(s, j, c).locked && Step(s, j, c).cpu == i {
      assert PcOk(s, j) && Apart(s, i, j);
    }
  }

  // ---------- what a call achieves ----------

  /** The exchange takes the lock exactly if nobody owns it; a failed one changes nothing. */
  lemma AcquireIff(n: nat, ms: seq<Move>, i: nat, call: Call)
    requires Moves(ms, n) && i < n && Run(Init(n), ms).pcs[i].Exchange?
    ensures var s := Run(Init(n), ms); var s' := Step(s, i, call);
            && (s'.pcs[i].owner <==> !Owned(s))
            && s' == if Owned(s) then s else s.(locked := true, pcs := s.pcs[i := StoreCpu(true)])
  {
    RunInv(n, ms);
    var s := Run(Init(n), ms);
    assert PcOk(s, i);
    if Owned(s) {
      var o :| 0 <= o < |s.pcs| && s.pcs[o].owner;
      assert PcOk(s, o);
      assert s.pcs[i := s.pcs[i]] == s.pcs;
    }
  }

  /** The next k steps are all of CPU i, which calls `call` whenever it is idle. */
  function Alone(s: State, i: nat, call: Call, k: nat): (r: State)
    requires i < |s.pcs|
    ensures |r.pcs| == |s.pcs|
    decreases k
  {
    if k == 0 then s else Alone(Step(s, i, call), i, call, k - 1)
  }

  /** How far a CPU outside the lock is from the end of its next spin_lock if no other CPU moves. */
  function LockSteps(pc: Pc): nat {
    match pc
    case StoreCpu(_) => 1
    case Exchange(_) => 2
    case LoadCpu(_, c) => if c == Query then 6 else 3
    case LoadLocked(_, c) => if c == Query then 6 else 3
    case Answer(_, _) => 5
    case _ => 4
  }

  /** When nobody owns the lock, a CPU that is neither halted nor about to unlock gets it. */
  lemma LockAlone(n: nat, ms: seq<Move>, i: nat)
    requires Moves(ms, n) && i < n && !Owned(Run(Init(n), ms))
    requires var pc := Run(Init(n), ms).pcs[i]; !pc.Panic? && (pc.LoadLocked? || pc.LoadCpu? ==> pc.call != Unlock)
    ensures var s := Run(Init(n), ms);
            Alone(s, i, Lock, LockSteps(s.pcs[i])) == State(true, i, s.pcs[i := Idle(true)])
  {
    RunInv(n, ms);
    LockFrom(Run(Init(n), ms), i);
  }

  lemma {:induction false} LockFrom(s: State, i: nat)
    requires Inv(s) && i < |s.pcs| && forall j :: 0 <= j < |s.pcs| && j != i ==> !s.pcs[j].owner
    requires var pc := s.pcs[i]; !pc.Panic? && (pc.LoadLocked? || pc.LoadCpu? ==> pc.call != Unlock) && (pc.owner ==> pc.StoreCpu?)
    ensures Alone(s, i, Lock, LockSteps(s.pcs[i])) == State(true, i, s.pcs[i := Idle(true)])
    decreases LockSteps(s.pcs[i])
  {
    var s' := Step(s, i, Lock);
    assert PcOk(s, i);
    StepKeeps(s, i, Lock);
    if !s.pcs[i].StoreCpu? {
      LockFrom(s', i);
    }
  }

  /** How far the owner is from the end of its next spin_unlock if no other CPU moves. */
  function UnlockSteps(pc: Pc): nat {
    match pc
    case Release(_) => 1
    case ClearCpu(_) => 2
    case LoadCpu(_, c) => if c == Query then 7 else 3
    case LoadLocked(_, c) => if c == Query then 8 else 4
    case Answer(_, _) => 6
    case StoreCpu(_) => 6
    case _ => 5
  }

  /** The owner, unless it is halted or about to lock again, gives the lock up, and then nobody owns
      it. */
  lemma UnlockAlone(n: nat, ms: seq<Move>, i: nat)
    requires Moves(ms, n) && i < n
    requires var pc := Run(Init(n), ms).pcs[i]; pc.owner && !pc.Panic? && (pc.LoadLocked? || pc.LoadCpu? ==> pc.call != Lock)
    ensures var s := Run(Init(n), ms); var s' := Alone(s, i, Unlock, UnlockSteps(s.pcs[i]));
            s' == State(false, NOBODY, s.pcs[i := Idle(false)]) && !Owned(s')
  {
    RunInv(n, ms);
    UnlockFrom(Run(Init(n), ms), i);
  }

  lemma Unrecorded(s: State, i: nat)
    requires Inv(s) && i < |s.pcs| && s.pcs[i].Release?
    ensures s.cpu == NOBODY
  {
    assert PcOk(s, i);
    forall j: nat | j < |s.pcs| ensures !Recorded(s.pcs[j]) {
      assert Apart(s, i, j);
    }
    assert s.cpu == NOBODY || !PcOk(s, s.cpu);
  }

  lemma {:induction false} UnlockFrom(s: State, i: nat)
    requires Inv(s) && i < |s.pcs|
    requires var pc := s.pcs[i]; pc.owner && !pc.Panic? && (pc.LoadLocked? || pc.LoadCpu? ==> pc.call != Lock)
    ensures var s' := Alone(s, i, Unlock, UnlockSteps(s.pcs[i]));
            s' == State(false, NOBODY, s.pcs[i := Idle(false)]) && !Owned(s')
    decreases UnlockSteps(s.pcs[i])
  {
    var s' := Step(s, i, Unlock);
    assert PcOk(s, i);
    StepKeeps(s, i, Unlock);
    if s.pcs[i].Release? {
      Unrecorded(s, i);
      assert s'.pcs == s.pcs[i := Idle(false)];
      forall j: nat | j < |s.pcs| ensures !s'.pcs[j].owner {
        assert Apart(s, i, j);
      }
    } else {
      UnlockFrom(s', i);
    }
  }

  /** spin_unlock by a CPU that does not own the lock panics at its second load or before, whatever
      the other CPUs do in between: only its own steps move it. */
  lemma BadUnlockPanics(n: nat, ms: seq<Move>, i: nat, call: Call)
    requires Moves(ms, n) && i < n
    ensures var s := Run(Init(n), ms);
            && (s.pcs[i] == LoadLocked(false, Unlock) ==>
                  Step(s, i, call).pcs[i] == if Owned(s) then LoadCpu(false, Unlock) else Panic(false, Unlock))
            && (s.pcs[i] == LoadCpu(false, Unlock) ==> Step(s, i, call).pcs[i] == Panic(false, Unlock))
    ensures var s := Run(Init(n), ms); forall j: nat, c :: j < n && j != i ==> Step(s, j, c).pcs[i] == s.pcs[i]
  {
    RunInv(n, ms);
    var s := Run(Init(n), ms);
    assert PcOk(s, i);
    if Owned(s) {
      var o :| 0 <= o < |s.pcs| && s.pcs[o].owner;
      assert PcOk(s, o);
    }
  }
}
