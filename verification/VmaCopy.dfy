/** env_cpy_vmas of kern/env.c: fork gives the child a copy of its parent's areas. */
module VmaCopy {
  import opened Options
  import opened Chains
  import opened VmaAreas
  import opened VmaSpace

  /** env_cpy_vmas into an address space without areas: the child's list equals the parent's, and
      with it the permission map; the slots always suffice. */
  method EnvCpyVmas(child: Space, parent: Space) returns (ok: bool)
    requires child != parent && child.slots != parent.slots && parent.Valid() && child.Valid() && child.View() == []
    modifies child, child.slots
    ensures ok && child.Valid() && child.View() == parent.View() && SamePerms(parent.View(), child.View())
  {
    var v := parent.allocHead;
    ghost var k, vs := 0, parent.View();
    while v != NULL
      invariant 0 <= k <= |vs| && v == (if k < |vs| then parent.alloc[k] else NULL)
      invariant child.Linked() && |child.alloc| == k && child.View() == vs[..k]
      decreases |vs| - k
    {
      assert LinkOk(Links(parent.slots[..]), parent.alloc, k) && vs[k] == parent.slots[v].area;
      ok := CopyArea(child, parent.slots[v].area, vs, k);
      if !ok {
        return false;
      }
      v := parent.slots[v].link;
      k := k + 1;
    }
    assert vs[..k] == vs;
    ok := true;
  }

  /** One turn of its loop. */
  method CopyArea(child: Space, v: Area, ghost vs: seq<Area>, ghost k: nat) returns (ok: bool)
    requires child.Linked() && Sorted(vs) && k < |vs| <= NVMA && |child.alloc| == k && child.View() == vs[..k]
    requires vs[k] == v
    modifies child, child.slots
    ensures ok && child.Linked() && |child.alloc| == k + 1 && child.View() == vs[..k + 1]
  {
    assert AreaOk(v);
    RoundUpAligned(v.len);
    SortedAscends(vs);
    ghost var before := child.View();
    assert forall j :: 0 <= j < k ==> before[j].va == vs[j].va < v.va;
    var r, n; ghost var i;
    r, n, i := child.VmaNew(v.va, v.len, v.kind, v.src, v.srcSize, v.dst, v.perm);
    assert r == Made;
    ok := r != Fault;
    if ok {
      AtEnd(before, i, child.View()[i]);
      ghost var x := child.View()[k];
      assert x == child.slots[n].area;
      LastSet(vs, k, x, v);
      child.SetArea(n, child.slots[n].area.(huge := v.huge), k);
    }
  }

  /** An area that starts behind all others goes to the end. */
  lemma AtEnd(vs: seq<Area>, i: nat, v: Area)
    requires InsertPoint(vs, i, v) && forall j :: 0 <= j < |vs| ==> vs[j].va < v.va
    ensures i == |vs|
  {
    assert |vs| > 0 ==> vs[|vs| - 1].va < v.va;
  }

  /** A last area inserted and then corrected. */
  lemma LastSet(vs: seq<Area>, k: nat, x: Area, v: Area)
    requires k < |vs| && vs[k] == v
    ensures var before := vs[..k]; (before[..k] + [x] + before[k..])[k := v] == vs[..k + 1]
  {
  }
}
