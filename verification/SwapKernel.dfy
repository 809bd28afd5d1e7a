/** The swap code as the kernel runs it: tasklets linked through an array, a packed bitmap, frames,
    a disk and page-table entries changed in place. Each routine refines its step in SwapProtocol. */
module SwapKernel {
  import opened Options
  import opened Mmu
  import opened Bitmap
  import opened SwapMap
  import opened SwapProtocol
  import opened SwapRuns
  import opened Tasklets
  import opened Chains

  function TaskOf(x: Tasklet): Task {
    Task(if x.fn.Fn? then x.fn.kind else PageOut, x.count, x.sector, x.frame, x.loc)
  }

  /** The queue that the chained tasklets stand for. */
  ghost function QueueOf(ts: seq<Tasklet>, work: seq<int>): seq<Task>
    requires forall i :: 0 <= i < |work| ==> 0 <= work[i] < |ts|
  {
    seq(|work|, i requires 0 <= i < |work| => TaskOf(ts[work[i]]))
  }

  lemma SpotUnique(bits: seq<bool>, r: nat)
    requires IsFirstZero(bits, r)
    ensures r == Spot(bits)
  {
  }

  /** Changing the head tasklet changes the head of the queue. */
  lemma QueueHead(ts: seq<Tasklet>, work: seq<int>, x: Tasklet)
    requires work != [] && NoDup(work) && forall i :: 0 <= i < |work| ==> 0 <= work[i] < |ts|
    ensures QueueOf(ts[work[0] := x], work) == [TaskOf(x)] + QueueOf(ts, work)[1..]
  {
    var q, q' := QueueOf(ts, work), QueueOf(ts[work[0] := x], work);
    assert q' == [TaskOf(x)] + q[1..] by {
      forall i | 1 <= i < |work| ensures q'[i] == q[i] {
        assert Differ(work[0], work[i]);
      }
    }
  }

  /** The queue depends on the tasklets of the work list only, and not on their links or states. */
  lemma QueueSame(ts: seq<Tasklet>, ts': seq<Tasklet>, work: seq<int>)
    requires |ts'| == |ts| && forall i :: 0 <= i < |work| ==> 0 <= work[i] < |ts|
    requires forall i :: 0 <= i < |work| ==> TaskOf(ts'[work[i]]) == TaskOf(ts[work[i]])
    ensures QueueOf(ts', work) == QueueOf(ts, work)
  {
  }

  /** Dropping the head of the list drops the head of the queue. */
  lemma QueueTail(ts: seq<Tasklet>, ts': seq<Tasklet>, work: seq<int>)
    requires work != [] && NoDup(work) && |ts'| == |ts|
    requires forall i :: 0 <= i < |work| ==> 0 <= work[i] < |ts|
    requires forall i :: 0 <= i < |ts| && i != work[0] ==> ts'[i] == ts[i].(next := ts'[i].next)
    ensures QueueOf(ts', work[1..]) == QueueOf(ts, work)[1..]
  {
    forall i | 0 <= i < |work[1..]| ensures TaskOf(ts'[work[1..][i]]) == TaskOf(ts[work[i + 1]]) {
      assert Differ(work[0], work[i + 1]);
    }
  }

  /** Appending a prepared tasklet appends its task. */
  lemma QueuePush(ts: seq<Tasklet>, ts': seq<Tasklet>, work: seq<int>, t: int)
    requires |ts'| == |ts| && 0 <= t < |ts|
    requires forall i :: 0 <= i < |work| ==> 0 <= work[i] < |ts| && work[i] != t
    requires forall i :: 0 <= i < |ts| && i != t ==> ts'[i] == ts[i].(next := ts'[i].next)
    ensures forall i :: 0 <= i < |work + [t]| ==> 0 <= (work + [t])[i] < |ts'|
    ensures QueueOf(ts', work + [t]) == QueueOf(ts, work) + [TaskOf(ts'[t])]
  {
  }

  /** Without repetition an element is found at the head only if it is the head. */
  lemma HeadIsFirst(work: seq<int>, j: nat)
    requires NoDup(work) && j < |work| && work[j] == work[0]
    ensures j == 0 && work[..j] + work[j + 1..] == work[1..]
  {
    assert 0 < j ==> Differ(work[0], work[j]);
  }

  lemma TailStates(ts: seq<Tasklet>, ts': seq<Tasklet>, work: seq<int>)
    requires work != [] && NoDup(work) && |ts'| == |ts| && forall i :: 0 <= i < |work| ==> 0 <= work[i] < |ts|
    requires forall i :: 0 <= i < |ts| && i != work[0] ==> ts'[i] == ts[i].(next := ts'[i].next)
    ensures var rest := work[1..]; forall i :: 0 <= i < |rest| ==> ts'[rest[i]] == ts[rest[i]].(next := ts'[rest[i]].next)
  {
    var rest := work[1..];
    forall i | 0 <= i < |rest| ensures rest[i] != work[0] {
      assert Differ(work[0], work[i + 1]);
    }
  }

  /** page_out's round while sectors are left. */
  ghost function SectorOut(s: State, ready: bool): State
    requires Shape(s) && s.work != [] && s.work[0].count < NSECTORS
  {
    var t := s.work[0];
    if !ready then s
    else
      s.(work := [t.(count := t.count + 1)] + s.work[1..],
         disk := PutSector(s.disk, s.lba, s.frames[t.frame].data[t.count]),
         lba := s.lba + 1,
         bits := Toggle(s.bits, t.sector + t.count))
  }

  lemma OutSplit(s: State, ready: bool)
    requires Shape(s) && s.work != []
    ensures s.work[0].count == NSECTORS ==> PageOutStep(s, ready) == FinishOut(s)
    ensures var t, spot := s.work[0], Spot(s.bits); var started := s.(work := [t.(sector := spot)] + s.work[1..], lba := spot);
            && (t.count == 0 ==> Shape(started) && PageOutStep(s, ready) == SectorOut(started, ready))
            && (0 < t.count < NSECTORS ==> PageOutStep(s, ready) == SectorOut(s, ready))
  {
    assert [s.work[0]] + s.work[1..] == s.work;
  }

  predicate SameStates(ts: seq<Tasklet>, ts': seq<Tasklet>) {
    |ts'| == |ts| && forall i :: 0 <= i < |ts| ==> ts'[i].state == ts[i].state
  }

  lemma ZeroByte(k: nat)
    requires k < 8
    ensures !BitOfByte(0, k)
  {
  }

  class Kernel {
    const pool: TaskPool
    const swapMap: array<bv8>
    const disk: array<Sector>
    const frames: array<Frame>
    var lba: nat
    var ptes: map<Loc, Word>
    var asleep: set<nat>
    var halted: bool

    /** Boot: an empty swap map and no mapped page. */
    constructor (nframes: nat)
      requires nframes <= NUM_LIMIT
      ensures Wired() && AllReady() && Boot(Abs())
    {
      var page := [[], [], [], [], [], [], [], []];
      pool := new TaskPool();
      swapMap := new bv8[SWAP_BITS / 8](_ => 0);
      disk := new Sector[SWAP_BITS](_ => []);
      frames := new Frame[nframes](_ => Frame(false, 0, page));
      lba, ptes, asleep, halted := 0, map[], {}, false;
      new;
      forall i | 0 <= i < SWAP_BITS ensures !Bits(swapMap[..])[i] {
        ZeroByte(i % 8);
      }
    }

    /** The four arrays are four objects. */
    ghost predicate Separate() {
      var a: object, b: object, c: object, d: object := pool.tasks, swapMap, disk, frames;
      a != b && a != c && a != d && b != c && b != d && c != d
    }

    ghost predicate Wired()
      reads this, pool, pool.tasks, frames
    {
      && Separate()
      && pool.Valid() && pool.prep == []
      && 8 * swapMap.Length == SWAP_BITS && disk.Length == SWAP_BITS && frames.Length <= NUM_LIMIT
      && (forall f :: 0 <= f < frames.Length ==> |frames[f].data| == NSECTORS)
      && (forall i :: 0 <= i < |pool.work| ==> TaskletOk(pool.tasks[pool.work[i]], frames.Length))
    }

    static predicate TaskletOk(x: Tasklet, nframes: nat) {
      x.fn.Fn? && x.count <= NSECTORS && x.frame < nframes
    }

    /** With task_lock free, every queued tasklet is ready to run. */
    ghost predicate AllReady()
      reads this, pool, pool.tasks
      requires pool.Valid()
    {
      forall i :: 0 <= i < |pool.work| ==> pool.tasks[pool.work[i]].state == Ready
    }

    ghost function Abs(): (s: State)
      requires Wired()
      reads this, pool, pool.tasks, swapMap, disk, frames
      ensures Shape(s)
    {
      State(QueueOf(pool.tasks[..], pool.work), Bits(swapMap[..]), disk[..], lba, frames[..], ptes, asleep, halted)
    }

    /** find_swap_spot. */
    method FindSwapSpot() returns (r: nat)
      requires 8 * swapMap.Length == SWAP_BITS
      ensures r == Spot(Bits(swapMap[..]))
    {
      var i := 1;
      while i < SWAP_BITS
        invariant 1 <= i <= SWAP_BITS
        invariant forall j :: 1 <= j < i ==> Bits(swapMap[..])[j]
      {
        var b := GetBit(swapMap, i);
        if !b {
          SpotUnique(Bits(swapMap[..]), i);
          return i;
        }
        i := i + 1;
      }
      r := 0;
      SpotUnique(Bits(swapMap[..]), 0);
    }

    /** toggle_bit on the swap map; past its end the C code would write outside the array. */
    method Flip(i: nat)
      requires 8 * swapMap.Length == SWAP_BITS
      modifies swapMap
      ensures Bits(swapMap[..]) == Toggle(old(Bits(swapMap[..])), i)
    {
      if i < SWAP_BITS {
        ToggleBit(swapMap, i);
      }
    }

    /** ide_write_sector and ide_read_sector at the controller's position. */
    method WriteSector(x: Sector)
      modifies this`lba, disk
      ensures lba == old(lba) + 1 && disk[..] == PutSector(old(disk[..]), old(lba), x)
    {
      if lba < disk.Length {
        disk[lba] := x;
      }
      lba := lba + 1;
    }

    method ReadSector() returns (x: Sector)
      modifies this`lba
      ensures lba == old(lba) + 1 && x == GetSector(disk[..], old(lba))
    {
      x := if lba < disk.Length then disk[lba] else [];
      lba := lba + 1;
    }

    /** The first invocation of page_out picks the hole and starts the transfer. */
    method StartOut(t: int)
      requires Wired() && pool.work != [] && t == pool.work[0] && pool.tasks[t].count == 0
      modifies this`lba, pool.tasks
      ensures Wired() && SameStates(old(pool.tasks[..]), pool.tasks[..]) && pool.tasks[t].count == 0
      ensures var s := old(Abs()); var spot := Spot(s.bits);
              Abs() == s.(work := [s.work[0].(sector := spot)] + s.work[1..], lba := spot)
    {
      var spot := FindSwapSpot();
      ghost var before := pool.tasks[..];
      pool.tasks[t] := pool.tasks[t].(sector := spot);
      lba := spot;
      QueueKept(before, pool.tasks[..], pool.tList, pool.work);
      QueueKept(before, pool.tasks[..], pool.tFlist, pool.free);
      QueueHead(before, pool.work, pool.tasks[t]);
    }

    /** ++t->count. */
    method Advance(t: int)
      requires Wired() && pool.work != [] && t == pool.work[0] && pool.tasks[t].count < NSECTORS
      modifies pool.tasks
      ensures Wired() && SameStates(old(pool.tasks[..]), pool.tasks[..])
      ensures var s := old(Abs()); var x := s.work[0];
              Abs() == s.(work := [x.(count := x.count + 1)] + s.work[1..])
    {
      ghost var before := pool.tasks[..];
      pool.tasks[t] := pool.tasks[t].(count := pool.tasks[t].count + 1);
      QueueKept(before, pool.tasks[..], pool.tList, pool.work);
      QueueKept(before, pool.tasks[..], pool.tFlist, pool.free);
      QueueHead(before, pool.work, pool.tasks[t]);
    }

    /** page_out moves one sector of the page to disk. */
    method MoveOut(t: int)
      requires Wired() && pool.work != [] && t == pool.work[0] && pool.tasks[t].count < NSECTORS
      modifies this`lba, pool.tasks, disk, swapMap
      ensures Wired() && SameStates(old(pool.tasks[..]), pool.tasks[..])
      ensures var s := old(Abs()); var x := s.work[0];
              Abs() == s.(work := [x.(count := x.count + 1)] + s.work[1..],
                          disk := PutSector(s.disk, s.lba, s.frames[x.frame].data[x.count]),
                          lba := s.lba + 1, bits := Toggle(s.bits, x.sector + x.count))
    {
      var x := pool.tasks[t];
      assert Abs().work[0] == TaskOf(x);
      SaveSector(x.frame, x.count, x.sector + x.count);
      Advance(t);
    }

    /** One sector from a frame to disk, and the flip of its bit. */
    method SaveSector(f: nat, k: nat, bit: nat)
      requires Wired() && f < frames.Length && k < NSECTORS
      modifies this`lba, disk, swapMap
      ensures Wired()
      ensures var s := old(Abs());
              Abs() == s.(disk := PutSector(s.disk, s.lba, s.frames[f].data[k]), lba := s.lba + 1, bits := Toggle(s.bits, bit))
    {
      WriteSector(frames[f].data[k]);
      Flip(bit);
    }

    /** The end of page_out. */
    method EndOut(t: int) returns (done: bool)
      requires Wired() && pool.work != [] && t == pool.work[0] && pool.tasks[t].count == NSECTORS && !halted
      modifies this, swapMap, frames
      ensures Wired() && done == !halted
      ensures Abs() == FinishOut(old(Abs())).(work := old(Abs().work))
      ensures done ==> FinishOut(old(Abs())).work == old(Abs().work)[1..]
      ensures !done ==> FinishOut(old(Abs())).work == old(Abs().work)
    {
      ghost var s := Abs();
      var x := pool.tasks[t];
      assert s.work[0] == TaskOf(x);
      var f := frames[x.frame];
      if f.ref == 0 {
        if !f.alloc {
          Flip(x.sector);
          return true;
        }
        halted := true;
        return false;
      }
      if f.ref > 1 || x.loc !in ptes {
        halted := true;
        return false;
      }
      SwapEntryOut(t);
      return true;
    }

    /** page_out edits the entry of the unshared page and frees the frame. */
    method SwapEntryOut(t: int)
      requires Wired() && pool.work != [] && t == pool.work[0]
      requires var x := pool.tasks[t]; frames[x.frame].ref == 1 && x.loc in ptes
      modifies this`ptes, frames
      ensures Wired() && Abs() == FinishOut(old(Abs())).(work := old(Abs().work))
    {
      ghost var s := Abs();
      var x := pool.tasks[t];
      assert s.work[0] == TaskOf(x);
      var f := frames[x.frame];
      var fl := ptes[x.loc].flags;
      fl := fl.(p := !fl.p);
      fl := fl.(g := true);
      if fl.avail != 0 {
        fl := FlipAvail(fl);
      }
      ptes := ptes[x.loc := Word(x.sector % NUM_LIMIT, fl)];
      frames[x.frame] := f.(ref := f.ref - 1, alloc := false);
      assert frames[..] == s.frames[x.frame := f.(ref := 0, alloc := false)];
    }

    /** page_out: one invocation. */
    method PageOutOnce(t: int, ready: bool) returns (done: bool)
      requires Wired() && pool.work != [] && t == pool.work[0] && !halted
      modifies this, pool.tasks, swapMap, disk, frames
      ensures Wired() && (done ==> !halted)
      ensures done ==> Abs() == PageOutStep(old(Abs()), ready).(work := old(Abs().work))
                       && PageOutStep(old(Abs()), ready).work == old(Abs().work)[1..]
      ensures !done ==> Abs() == PageOutStep(old(Abs()), ready)
      ensures SameStates(old(pool.tasks[..]), pool.tasks[..])
    {
      ghost var s := Abs();
      assert s.work[0] == TaskOf(pool.tasks[t]);
      OutSplit(s, ready);
      if pool.tasks[t].count == NSECTORS {
        done := EndOut(t);
        return;
      }
      if pool.tasks[t].count == 0 {
        StartOut(t);
      }
      OutRound(t, ready);
      done := false;
    }

    /** page_out while sectors are left, with the hole picked. */
    method OutRound(t: int, ready: bool)
      requires Wired() && pool.work != [] && t == pool.work[0] && pool.tasks[t].count < NSECTORS
      modifies this`lba, pool.tasks, disk, swapMap
      ensures Wired() && SameStates(old(pool.tasks[..]), pool.tasks[..]) && Abs() == SectorOut(old(Abs()), ready)
    {
      ghost var s := Abs();
      assert s.work[0] == TaskOf(pool.tasks[t]);
      if ready {
        MoveOut(t);
      }
    }

    /** page_in moves one sector from disk into the page. */
    method MoveIn(t: int)
      requires Wired() && pool.work != [] && t == pool.work[0] && pool.tasks[t].count < NSECTORS
      modifies this`lba, pool.tasks, frames, swapMap
      ensures Wired() && SameStates(old(pool.tasks[..]), pool.tasks[..])
      ensures var s := old(Abs()); var x := s.work[0]; var f := s.frames[x.frame];
              Abs() == s.(work := [x.(count := x.count + 1)] + s.work[1..],
                          frames := s.frames[x.frame := f.(data := f.data[x.count := GetSector(s.disk, s.lba)])],
                          lba := s.lba + 1, bits := Toggle(s.bits, x.sector + x.count))
    {
      var x := pool.tasks[t];
      assert Abs().work[0] == TaskOf(x);
      LoadSector(x.frame, x.count, x.sector + x.count);
      Advance(t);
    }

    /** One sector from disk into a frame, and the flip of its bit. */
    method LoadSector(f: nat, k: nat, bit: nat)
      requires Wired() && f < frames.Length && k < NSECTORS
      modifies this`lba, frames, swapMap
      ensures Wired()
      ensures var s := old(Abs());
              Abs() == s.(frames := s.frames[f := s.frames[f].(data := s.frames[f].data[k := GetSector(s.disk, s.lba)])],
                          lba := s.lba + 1, bits := Toggle(s.bits, bit))
    {
      var bytes := ReadSector();
      FillSector(f, k, bytes);
      Flip(bit);
    }

    method FillSector(f: nat, k: nat, bytes: Sector)
      requires Wired() && f < frames.Length && k < NSECTORS
      modifies frames
      ensures Wired() && frames[..] == old(frames[..])[f := old(frames[f]).(data := old(frames[f].data)[k := bytes])]
    {
      ghost var fs, x := frames[..], frames[f];
      frames[f] := frames[f].(data := frames[f].data[k := bytes]);
      assert frames[..] == fs[f := x.(data := x.data[k := bytes])];
    }

    /** The end of page_in; its loop over sharers runs only for a partly set PTE_AVAIL field. */
    method EndIn(t: int) returns (done: bool)
      requires Wired() && pool.work != [] && t == pool.work[0] && pool.tasks[t].count == NSECTORS && !halted
      modifies this, frames
      ensures Wired() && done == !halted
      ensures Abs() == FinishIn(old(Abs())).(work := old(Abs().work))
      ensures done ==> FinishIn(old(Abs())).work == old(Abs().work)[1..]
      ensures !done ==> FinishIn(old(Abs())).work == old(Abs().work)
    {
      ghost var s := Abs();
      var x := pool.tasks[t];
      assert s.work[0] == TaskOf(x);
      if x.loc !in ptes {
        halted := true;
        return false;
      }
      var f := frames[x.frame];
      frames[x.frame] := f.(ref := f.ref + 1);
      var fl := ptes[x.loc].flags;
      fl := fl.(g := !fl.g);
      if fl.avail != 0 {
        fl := FlipAvail(fl);
      }
      fl := fl.(p := true);
      ptes := ptes[x.loc := Word(x.frame % NUM_LIMIT, fl)];
      asleep := asleep - {x.loc.env};
      assert frames[..] == s.frames[x.frame := f.(ref := f.ref + 1)];
      return true;
    }

    /** page_in: one invocation. */
    method PageInOnce(t: int, ready: bool) returns (done: bool)
      requires Wired() && pool.work != [] && t == pool.work[0] && !halted
      modifies this, pool.tasks, swapMap, frames
      ensures Wired() && (done ==> !halted)
      ensures done ==> Abs() == PageInStep(old(Abs()), ready).(work := old(Abs().work))
                       && PageInStep(old(Abs()), ready).work == old(Abs().work)[1..]
      ensures !done ==> Abs() == PageInStep(old(Abs()), ready)
      ensures SameStates(old(pool.tasks[..]), pool.tasks[..])
    {
      ghost var s := Abs();
      var x := pool.tasks[t];
      assert s.work[0] == TaskOf(x);
      if x.count == NSECTORS {
        done := EndIn(t);
        return;
      }
      if x.count == 0 {
        lba := x.sector;
      }
      assert Abs() == s.(lba := lba);
      if ready {
        MoveIn(t);
      }
      return false;
    }

    /** ktask's search: the first tasklet of the list that is ready. */
    method FindReady() returns (t: int, ghost k: nat)
      requires pool.Valid()
      ensures k <= |pool.work| && t == (if k < |pool.work| then pool.work[k] else NULL)
      ensures k < |pool.work| ==> pool.tasks[t].state == Ready
      ensures forall j :: 0 <= j < k ==> pool.tasks[pool.work[j]].state != Ready
    {
      t, k := pool.tList, 0;
      while t != NULL && pool.tasks[t].state != Ready
        invariant 0 <= k <= |pool.work| && t == (if k < |pool.work| then pool.work[k] else NULL)
        invariant forall j :: 0 <= j < k ==> pool.tasks[pool.work[j]].state != Ready
        decreases |pool.work| - k
      {
        assert LinkOk(Nexts(pool.tasks[..]), pool.work, k);
        t := pool.tasks[t].next;
        k := k + 1;
      }
    }

    /** ktask: one round. The loop body of the kernel thread with the locks held. */
    method Ktask(ready: bool)
      requires Wired() && AllReady() && !halted
      modifies this, pool, pool.tasks, swapMap, disk, frames
      ensures Wired() && (!halted ==> AllReady())
      ensures Abs() == KtaskStep(old(Abs()), ready)
    {
      ghost var s := Abs();
      var t; ghost var k;
      t, k := FindReady();
      if t == NULL {
        return;
      }
      assert k == 0 && s.work[0] == TaskOf(pool.tasks[t]);
      assert forall i :: 1 <= i < |pool.work| ==> Differ(pool.work[0], pool.work[i]);
      SetState(t, Working);
      var status := RunHead(t, ready);
      if !halted {
        EndRound(t, status);
      }
    }

    /** ktask calls the function of the tasklet. */
    method RunHead(t: int, ready: bool) returns (status: bool)
      requires Wired() && pool.work != [] && t == pool.work[0] && !halted
      modifies this, pool.tasks, swapMap, disk, frames
      ensures Wired() && SameStates(old(pool.tasks[..]), pool.tasks[..]) && (status ==> !halted)
      ensures status ==> Abs() == KtaskStep(old(Abs()), ready).(work := old(Abs().work)) && KtaskStep(old(Abs()), ready).work == old(Abs().work)[1..]
      ensures !status ==> Abs() == KtaskStep(old(Abs()), ready)
    {
      assert Abs().work[0] == TaskOf(pool.tasks[t]);
      if pool.tasks[t].fn == Fn(PageOut) {
        status := PageOutOnce(t, ready);
      } else {
        status := PageInOnce(t, ready);
      }
    }

    method SetState(t: int, st: TaskletState)
      requires Wired() && t in pool.work
      modifies pool.tasks
      ensures Wired() && Abs() == old(Abs())
      ensures forall i :: 0 <= i < pool.tasks.Length && i != t ==> pool.tasks[i] == old(pool.tasks[i])
      ensures 0 <= t < pool.tasks.Length && pool.tasks[t].state == st
    {
      ghost var before := pool.tasks[..];
      pool.tasks[t] := pool.tasks[t].(state := st);
      QueueKept(before, pool.tasks[..], pool.tList, pool.work);
      QueueKept(before, pool.tasks[..], pool.tFlist, pool.free);
      QueueSame(before, pool.tasks[..], pool.work);
    }

    /** ktask looks the tasklet up again by id and frees it or makes it ready again. */
    method EndRound(id: int, status: bool)
      requires Wired() && pool.work != [] && id == pool.work[0]
      requires forall i :: 1 <= i < |pool.work| ==> pool.tasks[pool.work[i]].state == Ready
      modifies pool, pool.tasks
      ensures Wired() && AllReady()
      ensures Abs() == if status then old(Abs()).(work := old(Abs().work)[1..]) else old(Abs())
    {
      var t, prev; ghost var k;
      t, prev, k := pool.FindWork(id);
      assert k == 0;
      if status {
        FreeHead(id);
      } else {
        SetState(t, Ready);
      }
    }

    /** task_free of the head of the queue. */
    method FreeHead(id: int)
      requires Wired() && pool.work != [] && id == pool.work[0]
      modifies pool, pool.tasks
      ensures Wired() && pool.work == old(pool.work)[1..]
      ensures forall i :: 0 <= i < |pool.work| ==> pool.tasks[pool.work[i]].state == old(pool.tasks[pool.work[i + 1]].state)
      ensures Abs() == old(Abs()).(work := old(Abs().work)[1..])
    {
      ghost var before, work := pool.tasks[..], pool.work;
      var found; ghost var j;
      found, j := pool.TaskFree(id);
      HeadIsFirst(work, j);
      TailStates(before, pool.tasks[..], work);
      QueueTail(before, pool.tasks[..], work);
    }

    /** Queues a tasklet prepared with the given function, frame and page, if one is free. */
    method Prepare(kind: Kind, frame: nat, loc: Loc, sector: Option<nat>) returns (ok: bool, ghost stale: nat)
      requires Wired() && AllReady() && frame < frames.Length
      modifies pool, pool.tasks
      ensures Wired() && AllReady() && ok == (|old(pool.work)| < NTASKS)
      ensures Abs() == if ok then old(Abs()).(work := old(Abs().work) + [Task(kind, 0, stale, frame, loc)]) else old(Abs())
      ensures sector.Some? ==> stale == sector.value
    {
      stale := if sector.Some? then sector.value else 0;
      var t := TakeTasklet();
      ok := t != NULL;
      if ok {
        var x := pool.tasks[t].(state := Ready, fn := Fn(kind), count := 0, frame := frame, loc := loc);
        if sector.Some? {
          x := x.(sector := sector.value);
        }
        stale := x.sector;
        FillAndQueue(t, x);
      }
    }

    /** task_get_free. */
    method TakeTasklet() returns (t: int)
      requires Wired() && AllReady()
      modifies pool
      ensures Preparing(t) && AllReady() && pool.work == old(pool.work) && (t != NULL <==> |old(pool.work)| < NTASKS)
      ensures State(QueueOf(pool.tasks[..], pool.work), Bits(swapMap[..]), disk[..], lba, frames[..], ptes, asleep, halted) == old(Abs())
      ensures t == NULL ==> Wired()
    {
      t := pool.TaskGetFree();
    }

    /** Everything is in order but for tasklet t, which is on neither list. */
    ghost predicate Preparing(t: int)
      reads this, pool, pool.tasks, frames
    {
      && Separate() && pool.Valid() && pool.prep == (if t == NULL then [] else [t])
      && 8 * swapMap.Length == SWAP_BITS && disk.Length == SWAP_BITS && frames.Length <= NUM_LIMIT
      && (forall f :: 0 <= f < frames.Length ==> |frames[f].data| == NSECTORS)
      && (forall i :: 0 <= i < |pool.work| ==> TaskletOk(pool.tasks[pool.work[i]], frames.Length))
      && (t != NULL ==> 0 <= t < pool.tasks.Length)
    }

    /** Writes the prepared tasklet and appends it to the work list. */
    method FillAndQueue(t: int, x: Tasklet)
      requires Preparing(t) && AllReady() && t != NULL && x.next == pool.tasks[t].next && TaskletOk(x, frames.Length) && x.state == Ready
      modifies pool, pool.tasks
      ensures Wired() && AllReady()
      ensures Abs() == State(old(QueueOf(pool.tasks[..], pool.work)) + [TaskOf(x)], Bits(swapMap[..]), disk[..], lba, frames[..], ptes, asleep, halted)
    {
      ghost var before, work := pool.tasks[..], pool.work;
      QueueTasklet(t, x);
      assert forall i :: 0 <= i < |work| ==> work[i] != t by {
        PartitionQueue(work, old(pool.free), t);
        assert forall i :: 0 <= i < |work| ==> Differ(work[i], [t][0]);
      }
      QueuePush(before, pool.tasks[..], work, t);
    }

    method QueueTasklet(t: int, x: Tasklet)
      requires pool.Valid() && pool.prep == [t] && 0 <= t < pool.tasks.Length && x.next == pool.tasks[t].next
      modifies pool, pool.tasks
      ensures pool.Valid() && pool.prep == [] && pool.work == old(pool.work) + [t]
      ensures forall i :: 0 <= i < pool.tasks.Length ==>
                pool.tasks[i] == (if i == t then x else old(pool.tasks[i])).(next := pool.tasks[i].next)
    {
      ghost var before := pool.tasks[..];
      PartitionQueue(pool.work, pool.free, t);
      pool.tasks[t] := x;
      assert forall i :: 0 <= i < |pool.work| ==> Differ(pool.work[i], [t][0]);
      assert forall i :: 0 <= i < |pool.free| ==> Differ(pool.free[i], [t][0]);
      QueueKept(before, pool.tasks[..], pool.tList, pool.work);
      QueueKept(before, pool.tasks[..], pool.tFlist, pool.free);
      pool.TaskAddAlloc(t);
    }

    /** The tasklet-preparing part of reclaim_pgs for a page taken from the LRU list: find_pte_all
        finds the entry that maps it, and a page-out is queued. */
    method ReclaimPage(frame: nat) returns (ok: bool, ghost loc: Loc, ghost stale: nat)
      requires Wired() && AllReady() && !halted && frame < frames.Length
      modifies this`halted, pool, pool.tasks
      ensures Wired() && AllReady()
      ensures halted ==> ok == false && Abs() == old(Abs()).(halted := true)
      ensures halted <==> |old(pool.work)| < NTASKS && forall l :: l in ptes ==> !(ptes[l].flags.p && ptes[l].num == frame)
      ensures !halted ==> ok == (|old(pool.work)| < NTASKS)
      ensures ok ==> Present(old(Abs()), loc) && old(ptes)[loc].num == frame
      ensures !halted ==> Abs() == if ok then old(Abs()).(work := old(Abs().work) + [Task(PageOut, 0, stale, frame, loc)])
                                   else old(Abs())
    {
      loc, stale := Loc(0, 0), 0;
      if pool.tFlist == NULL {
        return false, loc, stale;
      }
      if exists l :: l in ptes && ptes[l].flags.p && ptes[l].num == frame {
        var l :| l in ptes && ptes[l].flags.p && ptes[l].num == frame;
        loc := l;
        ok, stale := Prepare(PageOut, frame, l, None);
      } else {
        halted := true;
        ok := false;
      }
    }

    /** swap_in: puts the faulting environment to sleep, marks the entry, takes the frame that
        page_alloc returned and queues a page-in for the sector in the entry. */
    method SwapIn(loc: Loc, frame: nat) returns (ok: bool)
      requires Wired() && AllReady() && !halted && Enabled(Abs().(work := []), Fault(loc, frame))
      modifies this, pool, pool.tasks, frames
      ensures Wired() && AllReady() && !halted && ok == (|old(pool.work)| < NTASKS)
      ensures ok ==> Enabled(old(Abs()), Fault(loc, frame)) && Abs() == Apply(old(Abs()), Fault(loc, frame))
      ensures !ok ==> Abs() == old(Abs()).(asleep := old(asleep) + {loc.env})
    {
      ghost var s := Abs();
      asleep := asleep + {loc.env};
      ghost var stale;
      ok, stale := Prepare(PageIn, frame, loc, Some(ptes[loc].num));
      if ok {
        var w := ptes[loc];
        ptes := ptes[loc := w.(flags := MarkFlags(w.flags))];
        var f := frames[frame];
        frames[frame] := f.(alloc := true, ref := 0);
        assert frames[..] == s.frames[frame := f.(alloc := true, ref := 0)];
      }
    }
  }
}
