/**
 The kernel's page and environment routines as methods on one mutable state, with the
 reference counts exact and every address space a flat map before and after each of them.
 */
module AddressSpaces {
  import opened PageTables
  import opened Options

  /** Environment `d` maps at `vb` what it mapped before. */
  ghost predicate SameAt(before: Vm, after: Vm, d: EnvId, vb: nat) {
    vb < UTOP ==> Flat(after, d, vb) == Flat(before, d, vb)
  }

  /** All environments but `e` map what they mapped before. */
  ghost predicate SameElsewhere(before: Vm, after: Vm, e: EnvId) {
    forall d, vb: nat :: d != e ==> SameAt(before, after, d, vb)
  }

  /** Address spaces differ at most at the page of `va` in `e`. */
  ghost predicate SameExceptAt(before: Vm, after: Vm, e: EnvId, va: nat) {
    forall d, vb: nat :: d != e || vb / PGSIZE != va / PGSIZE ==> SameAt(before, after, d, vb)
  }

  lemma SameElsewhereChains(a: Vm, b: Vm, c: Vm, e: EnvId)
    requires SameElsewhere(a, b, e) && SameElsewhere(b, c, e)
    ensures SameElsewhere(a, c, e)
  {
    forall d, vb: nat | d != e ensures SameAt(a, c, d, vb) {
      assert SameAt(a, b, d, vb) && SameAt(b, c, d, vb);
    }
  }

  lemma PageAddress(d: nat, t: nat)
    requires d < USER_PDES && t < NPTENTRIES
    ensures var va := d * PTSIZE + t * PGSIZE; va < UTOP && Pdx(va) == d && Ptx(va) == t
  {
    var va := d * PTSIZE + t * PGSIZE;
    assert va == (d * 1024 + t) * PGSIZE;
    assert va / PGSIZE == d * 1024 + t;
    assert va / PTSIZE == d;
  }

  lemma DropTableFlat(vm: Vm, k: Kinds, held: set<Frame>, e: EnvId, w: Word)
    requires Inv(vm, k, held) && e in vm.dirs && w in vm.mem && w.frame == vm.dirs[e]
    requires vm.mem[w].frame in vm.ppRef && vm.ppRef[vm.mem[w].frame] > 0
    ensures SameElsewhere(vm, DropTable(vm, w), e)
  {
    forall d, vb: nat | d != e ensures SameAt(vm, DropTable(vm, w), d, vb) {
      assert DirOk(vm, k, d) && DirOk(vm, k, e);
      if d in vm.dirs {
        assert WordOk(vm, k, Word(vm.dirs[d], Pdx(vb)));
      }
    }
  }

  lemma IndexedEmptyIsEmpty(vm: Vm, k: Kinds, held: set<Frame>, f: Frame, n: nat)
    requires Inv(vm, k, held) && f in k && n == (if k[f].DirOf? then USER_PDES else NPTENTRIES)
    requires forall i :: 0 <= i < n ==> Word(f, i) !in vm.mem
    ensures EmptyPage(vm, f)
  {
    forall w | w in vm.mem ensures w.frame != f {
      assert WordOk(vm, k, w);
      assert w == Word(w.frame, w.idx);
    }
  }

  /** A page found by page_lookup is a counted user page. */
  lemma MappedIsUserPage(vm: Vm, k: Kinds, held: set<Frame>, e: EnvId, va: nat)
    requires Inv(vm, k, held) && va < UTOP && Flat(vm, e, va).Some?
    ensures var f := Flat(vm, e, va).value.frame;
      f in vm.ppRef && vm.ppRef[f] > 0 && f !in k && f !in vm.free && f !in held
  {
    WordServesOnePage(vm, k, held, e, va, e, va);
    var w := Find(vm, vm.dirs[e], va).value;
    assert WordOk(vm, k, w) && PageOk(vm, held, vm.mem[w].frame);
    NamedIsCounted(vm, w);
  }

  /** Once the last environment is gone, every page is back on the free list. */
  lemma NoEnvironmentsNoLeak(vm: Vm, k: Kinds, f: Frame)
    requires Inv(vm, k, {}) && vm.dirs == map[] && f in vm.ppRef
    ensures vm.mem == map[] && f in vm.free && vm.ppRef[f] == 0
  {
    forall d ensures d in k ==> k[d].TableAt? { assert KindOk(vm, k, d); }
    forall t ensures t !in k { assert KindOk(vm, k, t); }
    forall w ensures w !in vm.mem { assert WordOk(vm, k, w); }
    assert PageOk(vm, {}, f);
    assert WordsNaming(vm.mem, f) == {} && EnvsNaming(vm.dirs, f) == {};
  }

  predicate HasBit(perm: nat, bit: nat)
    requires bit > 0
  {
    perm / bit % 2 == 1
  }

  /** No permission bits outside PTE_USER, which is 0xe07. */
  predicate OnlyUserBits(perm: nat) {
    perm < 0x1000 && perm / 8 % 64 == 0
  }

  /** envid2env with its permission check: `cur` may act on itself and on its children. */
  predicate MayUse(vm: Vm, parents: map<EnvId, EnvId>, cur: EnvId, e: EnvId) {
    e in vm.dirs && (e == cur || (e in parents && parents[e] == cur))
  }

  /** A page-aligned address below UTOP. */
  predicate UserPage(va: nat) {
    va < UTOP && va % PGSIZE == 0
  }

  class Kernel {
    var vm: Vm
    ghost var kinds: Kinds
    /** Pages taken from the free list by code that has not mapped them yet. */
    ghost var held: set<Frame>

    ghost predicate Valid()
      reads this
    {
      Inv(vm, kinds, held)
    }

    /** page_init: every managed page is free and counts nothing. */
    constructor (pages: seq<Frame>)
      requires NoRepeats(pages)
      ensures Valid() && held == {} && vm.free == pages && vm.dirs == map[] && vm.mem == map[]
    {
      vm := Vm(map f | f in pages :: 0, pages, map[], map[]);
      kinds := map[];
      held := {};
      new;
      forall f ensures PageOk(vm, held, f) {
        assert WordsNaming(vm.mem, f) == {} && EnvsNaming(vm.dirs, f) == {};
      }
      assert forall w :: WordOk(vm, kinds, w);
      assert forall f :: KindOk(vm, kinds, f);
      assert forall e :: DirOk(vm, kinds, e);
    }

    method PageAlloc() returns (p: Option<Frame>)
      requires Valid()
      modifies this
      ensures Valid()
      ensures p.None? ==> old(vm).free == [] && vm == old(vm) && held == old(held)
      ensures p.Some? ==> old(vm).free != [] && p.value == old(vm).free[0] && vm == old(vm).(free := old(vm).free[1..])
      ensures p.Some? ==> held == old(held) + {p.value} && p.value !in old(held)
      ensures p.Some? ==> p.value in vm.ppRef && p.value !in kinds && p.value !in vm.free
      ensures kinds == old(kinds)
    {
      var got := TakePage(vm);
      if got.None? {
        return None;
      }
      FreeIsUncounted(vm, kinds, held, vm.free[0]);
      assert PageOk(vm, held, vm.free[0]);
      ghost var before, was := vm, held;
      p := Some(got.value.1);
      vm := got.value.0;
      held := held + {p.value};
      forall f ensures PageOk(vm, held, f) { assert PageOk(before, was, f); }
      forall w ensures WordOk(vm, kinds, w) { assert WordOk(before, kinds, w); }
      forall f ensures KindOk(vm, kinds, f) { assert KindOk(before, kinds, f); }
      forall e ensures DirOk(vm, kinds, e) { assert DirOk(before, kinds, e); }
    }

    method PageFree(f: Frame)
      requires Valid() && f in held
      modifies this
      ensures Valid() && held == old(held) - {f} && vm == old(vm).(free := [f] + old(vm).free) && kinds == old(kinds)
    {
      ghost var before, was := vm, held;
      FreeIsUncounted(vm, kinds, held, f);
      assert PageOk(vm, held, f);
      vm := vm.(free := [f] + vm.free);
      held := held - {f};
      forall x ensures PageOk(vm, held, x) { assert PageOk(before, was, x); }
      forall w ensures WordOk(vm, kinds, w) { assert WordOk(before, kinds, w); }
      forall x ensures KindOk(vm, kinds, x) { assert KindOk(before, kinds, x); }
      forall e ensures DirOk(vm, kinds, e) { assert DirOk(before, kinds, e); }
    }

    /** page_insert: maps `f` at `va` and nothing else, or, when no table can be had, changes nothing. */
    method PageInsert(e: EnvId, f: Frame, va: nat, perm: nat) returns (ok: bool)
      requires Valid() && e in vm.dirs && va < UTOP && f in vm.ppRef && f !in kinds && f !in vm.free
      modifies this
      ensures Valid() && vm.dirs == old(vm).dirs
      ensures ok <==> Find(old(vm), old(vm).dirs[e], va).Some? || old(vm).free != []
      ensures ok ==> held == old(held) - {f} && Flat(vm, e, va) == Some(Entry(f, Present(perm)))
      ensures ok ==> SameExceptAt(old(vm), vm, e, va)
      ensures !ok ==> vm == old(vm) && held == old(held) && kinds == old(kinds)
    {
      ghost var before := vm;
      forall x | x in vm.free ensures x in vm.ppRef { FreeIsUncounted(vm, kinds, held, x); }
      var got := Walk(vm, vm.dirs[e], va);
      if got.None? {
        return false;
      }
      WalkKeeps(vm, kinds, held, e, va);
      forall d: EnvId, vb: nat | vb < UTOP ensures Flat(got.value.0, d, vb) == Flat(vm, d, vb) {
        WalkFlat(vm, kinds, held, e, va, d, vb);
      }
      AddressSplits(va, va);
      kinds := KindsAfterWalk(vm, kinds, vm.dirs[e], va);
      vm := got.value.0;
      ghost var walked := vm;
      MapKeeps(vm, kinds, held, got.value.1, f, perm);
      forall d: EnvId, vb: nat | vb < UTOP
        ensures Flat(Map(walked, got.value.1, f, perm), d, vb) ==
                if e == d && va / PGSIZE == vb / PGSIZE then Some(Entry(f, Present(perm))) else Flat(walked, d, vb)
      {
        MapFlat(walked, kinds, held, e, va, f, perm, d, vb);
      }
      vm := Map(vm, got.value.1, f, perm);
      held := held - {f};
      return true;
    }

    /** page_remove */
    method PageRemove(e: EnvId, va: nat)
      requires Valid() && e in vm.dirs && va < UTOP
      modifies this
      ensures Valid() && vm.dirs == old(vm).dirs && held == old(held) && kinds == old(kinds)
      ensures Flat(vm, e, va) == None
      ensures SameExceptAt(old(vm), vm, e, va)
      ensures var w := Find(old(vm), old(vm).dirs[e], va);
        vm.mem == if w.Some? then old(vm).mem - {w.value} else old(vm).mem
    {
      ghost var before := vm;
      var w := Find(vm, vm.dirs[e], va);
      if w.Some? && w.value in vm.mem {
        WordServesOnePage(vm, kinds, held, e, va, e, va);
        UnmapKeeps(vm, kinds, held, w.value);
        forall d: EnvId, vb: nat | vb < UTOP
          ensures Flat(Unmap(before, w.value), d, vb) ==
                  if e == d && va / PGSIZE == vb / PGSIZE then None else Flat(before, d, vb)
        {
          UnmapFlat(before, kinds, held, e, va, d, vb);
        }
        vm := Unmap(vm, w.value);
      } else if w.Some? {
        assert vm.mem - {w.value} == vm.mem;
      }
    }

    /** sys_page_alloc: a fresh page at `va`, or no change at all. */
    method SysPageAlloc(cur: EnvId, parents: map<EnvId, EnvId>, e: EnvId, va: nat, perm: nat) returns (ok: bool)
      requires Valid() && held == {}
      modifies this
      ensures Valid() && held == {} && vm.dirs == old(vm).dirs
      ensures ok <==>
        && MayUse(old(vm), parents, cur, e)
        && HasBit(perm, PTE_U) && HasBit(perm, PTE_P) && OnlyUserBits(perm) && UserPage(va)
        && |old(vm).free| > if Find(old(vm), old(vm).dirs[e], va).Some? then 0 else 1
      ensures ok ==> Flat(vm, e, va) == Some(Entry(old(vm).free[0], perm))
      ensures ok ==> SameExceptAt(old(vm), vm, e, va)
      ensures !ok ==> vm == old(vm)
    {
      if !MayUse(vm, parents, cur, e) {
        return false;
      }
      if !HasBit(perm, PTE_U) || !HasBit(perm, PTE_P) || !OnlyUserBits(perm) || !UserPage(va) {
        return false;
      }
      var p := PageAlloc();
      if p.None? {
        return false;
      }
      ghost var taken := vm;
      ok := PageInsert(e, p.value, va, perm);
      if !ok {
        PageFree(p.value);
        assert vm.free == old(vm).free;
      } else {
        forall d, vb: nat | d != e || vb / PGSIZE != va / PGSIZE ensures SameAt(old(vm), vm, d, vb) {
          assert SameAt(taken, vm, d, vb);
        }
      }
    }

    /** sys_page_map: the page at `sva` of `es` also at `dva` of `ed`, or no change at all. */
    method SysPageMap(cur: EnvId, parents: map<EnvId, EnvId>, es: EnvId, sva: nat, ed: EnvId, dva: nat, perm: nat)
      returns (ok: bool)
      requires Valid() && held == {}
      modifies this
      ensures Valid() && held == {} && vm.dirs == old(vm).dirs
      ensures ok <==>
        && MayUse(old(vm), parents, cur, es) && MayUse(old(vm), parents, cur, ed) && UserPage(sva) && UserPage(dva)
        && (HasBit(perm, PTE_U) || HasBit(perm, PTE_P)) && OnlyUserBits(perm)
        && Flat(old(vm), es, sva).Some? && (HasBit(perm, PTE_W) ==> HasBit(Flat(old(vm), es, sva).value.perm, PTE_W))
        && (Find(old(vm), old(vm).dirs[ed], dva).Some? || old(vm).free != [])
      ensures ok ==> Flat(vm, ed, dva) == Some(Entry(Flat(old(vm), es, sva).value.frame, Present(perm)))
      ensures ok ==> SameExceptAt(old(vm), vm, ed, dva)
      ensures !ok ==> vm == old(vm)
    {
      if !MayUse(vm, parents, cur, es) || !MayUse(vm, parents, cur, ed) || !UserPage(sva) || !UserPage(dva) {
        return false;
      }
      if !(HasBit(perm, PTE_U) || HasBit(perm, PTE_P)) || !OnlyUserBits(perm) {
        return false;
      }
      var p := Lookup(vm, vm.dirs[es], sva);
      if p.None? {
        return false;
      }
      if HasBit(perm, PTE_W) && !HasBit(p.value.perm, PTE_W) {
        return false;
      }
      MappedIsUserPage(vm, kinds, held, es, sva);
      ok := PageInsert(ed, p.value.frame, dva, perm);
    }

    /** sys_page_unmap: nothing is mapped at `va` afterwards. */
    method SysPageUnmap(cur: EnvId, parents: map<EnvId, EnvId>, e: EnvId, va: nat) returns (ok: bool)
      requires Valid() && held == {}
      modifies this
      ensures Valid() && held == {} && vm.dirs == old(vm).dirs
      ensures ok <==> MayUse(old(vm), parents, cur, e) && UserPage(va)
      ensures ok ==> Flat(vm, e, va) == None && SameExceptAt(old(vm), vm, e, va)
      ensures !ok ==> vm == old(vm)
    {
      if !MayUse(vm, parents, cur, e) || !UserPage(va) {
        return false;
      }
      PageRemove(e, va);
      ok := true;
    }

    /** env_setup_vm: an address space that maps nothing. */
    method EnvSetupVm(e: EnvId) returns (ok: bool)
      requires Valid() && e !in vm.dirs
      modifies this
      ensures Valid() && held == old(held)
      ensures ok <==> old(vm).free != []
      ensures ok ==> vm.dirs.Keys == old(vm).dirs.Keys + {e} && forall va: nat :: Flat(vm, e, va) == None
      ensures SameElsewhere(old(vm), vm, e)
      ensures !ok ==> vm == old(vm)
    {
      forall x | x in vm.free ensures x in vm.ppRef { FreeIsUncounted(vm, kinds, held, x); }
      var got := SetupVm(vm, e);
      if got.None? {
        return false;
      }
      SetupKeeps(vm, kinds, held, e);
      FreeIsUncounted(vm, kinds, held, vm.free[0]);
      assert ClearPage(vm.mem, vm.free[0]) == vm.mem;
      kinds := kinds[vm.free[0] := DirOf(e)];
      vm := got.value;
      return true;
    }

    /** The body of env_free's loop, for a table that is present. */
    method FreeTable(e: EnvId, pdeno: nat)
      requires Valid() && e in vm.dirs && pdeno < USER_PDES && Word(vm.dirs[e], pdeno) in vm.mem
      modifies this
      ensures Valid() && held == old(held) && vm.dirs == old(vm).dirs
      ensures SameElsewhere(old(vm), vm, e)
      ensures Word(vm.dirs[e], pdeno) !in vm.mem && vm.mem.Keys <= old(vm).mem.Keys
    {
      var w := Word(vm.dirs[e], pdeno);
      var t := vm.mem[w].frame;
      assert DirOk(vm, kinds, e) && WordOk(vm, kinds, w);
      var pteno := 0;
      while pteno < NPTENTRIES
        invariant pteno <= NPTENTRIES && Valid() && held == old(held) && vm.dirs == old(vm).dirs && kinds == old(kinds)
        invariant SameElsewhere(old(vm), vm, e) && vm.mem.Keys <= old(vm).mem.Keys
        invariant w in vm.mem && vm.mem[w].frame == t
        invariant forall i :: 0 <= i < pteno ==> Word(t, i) !in vm.mem
      {
        if Word(t, pteno) in vm.mem {
          var va := pdeno * PTSIZE + pteno * PGSIZE;
          PageAddress(pdeno, pteno);
          ghost var before := vm;
          assert WordOk(vm, kinds, Word(t, pteno));
          PageRemove(e, va);
          assert SameElsewhere(before, vm, e);
          SameElsewhereChains(old(vm), before, vm, e);
        }
        pteno := pteno + 1;
      }
      IndexedEmptyIsEmpty(vm, kinds, held, t, NPTENTRIES);
      DropTableKeeps(vm, kinds, held, w);
      DropTableFlat(vm, kinds, held, e, w);
      ghost var before := vm;
      kinds := kinds - {t};
      vm := DropTable(vm, w);
      SameElsewhereChains(old(vm), before, vm, e);
    }

    /** env_free: the address space is gone, every page it alone referenced is free, and no other space has changed. */
    method EnvFree(e: EnvId)
      requires Valid()
      modifies this
      ensures Valid() && held == old(held) && vm.dirs == old(vm).dirs - {e}
      ensures SameElsewhere(old(vm), vm, e)
    {
      if e !in vm.dirs {
        return;
      }
      var d := vm.dirs[e];
      var pdeno := 0;
      while pdeno < USER_PDES
        invariant pdeno <= USER_PDES && Valid() && held == old(held) && vm.dirs == old(vm).dirs
        invariant SameElsewhere(old(vm), vm, e)
        invariant forall i :: 0 <= i < pdeno ==> Word(d, i) !in vm.mem
      {
        if Word(d, pdeno) in vm.mem {
          ghost var before := vm;
          FreeTable(e, pdeno);
          SameElsewhereChains(old(vm), before, vm, e);
        }
        pdeno := pdeno + 1;
      }
      assert DirOk(vm, kinds, e);
      IndexedEmptyIsEmpty(vm, kinds, held, d, USER_PDES);
      DropDirKeeps(vm, kinds, held, e);
      ghost var before := vm;
      kinds := kinds - {d};
      vm := DropDir(vm, e);
      assert SameElsewhere(before, vm, e);
      SameElsewhereChains(old(vm), before, vm, e);
    }
  }
}
