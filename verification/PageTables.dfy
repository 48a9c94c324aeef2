/**
 Physical page accounting and two-level page tables (kern/pmap.c, kern/env.c) on one
 processor, for the user half of the address space.

 Memory that holds directories and tables is a map from words to the present entries
 stored there; a word outside the map holds an entry without PTE_P.
 */
module PageTables {
  import opened Options

  const PGSIZE: nat := 4096
  const PTSIZE: nat := 4096 * 1024
  const NPTENTRIES: nat := 1024
  const UTOP: nat := 0xeec00000
  /** PDX(UTOP): the number of user page directory entries. */
  const USER_PDES: nat := 955

  type Frame = nat
  type EnvId = nat

  /** Entry `idx` of the page `frame`, read as a directory or table. */
  datatype Word = Word(frame: Frame, idx: nat)

  datatype Entry = Entry(frame: Frame, perm: nat)

  datatype Vm = Vm(ppRef: map<Frame, nat>, free: seq<Frame>, mem: map<Word, Entry>, dirs: map<EnvId, Frame>)

  const PTE_P: nat := 1
  const PTE_W: nat := 2
  const PTE_U: nat := 4

  /** The permissions of a directory entry. */
  const PDE_PERM: nat := PTE_U + PTE_W + PTE_P

  /** perm | PTE_P */
  function Present(perm: nat): nat {
    if perm % 2 == 1 then perm else perm + PTE_P
  }

  function Pdx(va: nat): nat { va / PTSIZE % 1024 }

  function Ptx(va: nat): nat { va / PGSIZE % 1024 }

  lemma AddressSplits(va: nat, vb: nat)
    requires va < UTOP && vb < UTOP
    ensures Pdx(va) < USER_PDES && Ptx(va) < NPTENTRIES
    ensures Pdx(va) == Pdx(vb) && Ptx(va) == Ptx(vb) <==> va / PGSIZE == vb / PGSIZE
  {
    assert va / PTSIZE == va / PGSIZE / 1024;
    assert vb / PTSIZE == vb / PGSIZE / 1024;
  }

  // ---------- The operations, in the order of the source's assignments ----------

  /** page_alloc */
  function TakePage(vm: Vm): Option<(Vm, Frame)> {
    if vm.free == [] then None else Some((vm.(free := vm.free[1..]), vm.free[0]))
  }

  function Incref(vm: Vm, f: Frame): Vm
    requires f in vm.ppRef
  {
    vm.(ppRef := vm.ppRef[f := vm.ppRef[f] + 1])
  }

  /** page_decref */
  function Decref(vm: Vm, f: Frame): Vm
    requires f in vm.ppRef && vm.ppRef[f] > 0
  {
    var r := vm.ppRef[f] - 1;
    vm.(ppRef := vm.ppRef[f := r], free := if r == 0 then [f] + vm.free else vm.free)
  }

  function ClearPage(mem: map<Word, Entry>, f: Frame): map<Word, Entry> {
    map w | w in mem && w.frame != f :: mem[w]
  }

  /** pgdir_walk with create == 0, down to the word of the page table. */
  function Find(vm: Vm, d: Frame, va: nat): Option<Word> {
    if Word(d, Pdx(va)) in vm.mem then Some(Word(vm.mem[Word(d, Pdx(va))].frame, Ptx(va))) else None
  }

  /** pgdir_walk with create == 1. */
  function Walk(vm: Vm, d: Frame, va: nat): Option<(Vm, Word)>
    requires forall f :: f in vm.free ==> f in vm.ppRef
  {
    if Find(vm, d, va).Some? then Some((vm, Find(vm, d, va).value))
    else if vm.free == [] then None
    else
      var t := vm.free[0];
      var cleared := vm.(free := vm.free[1..], mem := ClearPage(vm.mem, t));
      Some((Incref(cleared.(mem := cleared.mem[Word(d, Pdx(va)) := Entry(t, PDE_PERM)]), t), Word(t, Ptx(va))))
  }

  /** page_lookup */
  function Lookup(vm: Vm, d: Frame, va: nat): Option<Entry> {
    var w := Find(vm, d, va);
    if w.Some? && w.value in vm.mem then Some(vm.mem[w.value]) else None
  }

  /** page_remove at the word `w` that page_lookup found: page_decref comes before the store. */
  function Unmap(vm: Vm, w: Word): Vm
    requires w in vm.mem && vm.mem[w].frame in vm.ppRef && vm.ppRef[vm.mem[w].frame] > 0
  {
    var vm' := Decref(vm, vm.mem[w].frame);
    vm'.(mem := vm'.mem - {w})
  }

  /** page_insert after a successful walk to `w`. */
  function Map(vm: Vm, w: Word, f: Frame, perm: nat): Vm
    requires f in vm.ppRef && (w in vm.mem ==> vm.mem[w].frame in vm.ppRef && vm.ppRef[vm.mem[w].frame] > 0)
  {
    var up := Incref(vm, f);
    var cleared := if w in up.mem then Unmap(up, w) else up;
    cleared.(mem := cleared.mem[w := Entry(f, Present(perm))])
  }

  /** env_setup_vm: the user half of the boot directory, and so of the copy, has no present entry. */
  function SetupVm(vm: Vm, e: EnvId): Option<Vm>
    requires forall f :: f in vm.free ==> f in vm.ppRef
  {
    if vm.free == [] then None
    else
      var p := vm.free[0];
      Some(Incref(vm.(free := vm.free[1..], mem := ClearPage(vm.mem, p), dirs := vm.dirs[e := p]), p))
  }

  /** env_free, after the entries of one table are gone: the directory entry, then the table's reference. */
  function DropTable(vm: Vm, w: Word): Vm
    requires w in vm.mem && vm.mem[w].frame in vm.ppRef && vm.ppRef[vm.mem[w].frame] > 0
  {
    Decref(vm.(mem := vm.mem - {w}), vm.mem[w].frame)
  }

  /** env_free, at the end: the directory itself. */
  function DropDir(vm: Vm, e: EnvId): Vm
    requires e in vm.dirs && vm.dirs[e] in vm.ppRef && vm.ppRef[vm.dirs[e]] > 0
  {
    Decref(vm.(dirs := vm.dirs - {e}), vm.dirs[e])
  }

  // ---------- Counting references ----------

  /** The user page table entries and user directory entries that name `f`. */
  function WordsNaming(mem: map<Word, Entry>, f: Frame): set<Word> {
    set w | w in mem && mem[w].frame == f
  }

  /** The environments whose directory is `f`. */
  function EnvsNaming(dirs: map<EnvId, Frame>, f: Frame): set<EnvId> {
    set e | e in dirs && dirs[e] == f
  }

  function Refs(vm: Vm, f: Frame): nat {
    |WordsNaming(vm.mem, f)| + |EnvsNaming(vm.dirs, f)|
  }

  lemma WordsAfterSet(mem: map<Word, Entry>, w: Word, e: Entry, f: Frame)
    requires w !in mem
    ensures |WordsNaming(mem[w := e], f)| == |WordsNaming(mem, f)| + (if e.frame == f then 1 else 0)
  {
    if e.frame == f {
      assert WordsNaming(mem[w := e], f) == WordsNaming(mem, f) + {w};
    } else {
      assert WordsNaming(mem[w := e], f) == WordsNaming(mem, f);
    }
  }

  lemma WordsAfterClear(mem: map<Word, Entry>, w: Word, f: Frame)
    requires w in mem
    ensures |WordsNaming(mem - {w}, f)| == |WordsNaming(mem, f)| - (if mem[w].frame == f then 1 else 0)
  {
    if mem[w].frame == f {
      assert WordsNaming(mem, f) == WordsNaming(mem - {w}, f) + {w};
    } else {
      assert WordsNaming(mem - {w}, f) == WordsNaming(mem, f);
    }
  }

  lemma EnvsAfterSet(dirs: map<EnvId, Frame>, e: EnvId, d: Frame, f: Frame)
    requires e !in dirs
    ensures |EnvsNaming(dirs[e := d], f)| == |EnvsNaming(dirs, f)| + (if d == f then 1 else 0)
  {
    if d == f {
      assert EnvsNaming(dirs[e := d], f) == EnvsNaming(dirs, f) + {e};
    } else {
      assert EnvsNaming(dirs[e := d], f) == EnvsNaming(dirs, f);
    }
  }

  lemma EnvsAfterClear(dirs: map<EnvId, Frame>, e: EnvId, f: Frame)
    requires e in dirs
    ensures |EnvsNaming(dirs - {e}, f)| == |EnvsNaming(dirs, f)| - (if dirs[e] == f then 1 else 0)
  {
    if dirs[e] == f {
      assert EnvsNaming(dirs, f) == EnvsNaming(dirs - {e}, f) + {e};
    } else {
      assert EnvsNaming(dirs - {e}, f) == EnvsNaming(dirs, f);
    }
  }

  // ---------- The invariant ----------

  /**
   What a frame in use by the kernel is: the directory of an environment, or the table named by one
   directory word.
   */
  datatype Kind = DirOf(e: EnvId) | TableAt(w: Word)

  type Kinds = map<Frame, Kind>

  /**
   pp_ref is exact, and a page has no reference exactly when it is on the free list or in the hands
   of its allocator.
   */
  ghost predicate PageOk(vm: Vm, held: set<Frame>, f: Frame) {
    && (f in vm.ppRef ==> vm.ppRef[f] == Refs(vm, f))
    && (f in vm.free || f in held <==> f in vm.ppRef && Refs(vm, f) == 0)
    && !(f in vm.free && f in held)
  }

  ghost predicate WordOk(vm: Vm, k: Kinds, w: Word) {
    w in vm.mem ==>
      && w.frame in k && vm.mem[w].frame in vm.ppRef
      && (k[w.frame].DirOf? ==> w.idx < USER_PDES && vm.mem[w].frame in k && k[vm.mem[w].frame] == TableAt(w))
      && (k[w.frame].TableAt? ==> w.idx < NPTENTRIES && vm.mem[w].frame !in k)
  }

  ghost predicate KindOk(vm: Vm, k: Kinds, f: Frame) {
    f in k ==>
      && (k[f].DirOf? ==> k[f].e in vm.dirs && vm.dirs[k[f].e] == f)
      && (k[f].TableAt? ==>
        k[f].w in vm.mem && vm.mem[k[f].w].frame == f && k[f].w.frame in k && k[k[f].w.frame].DirOf?)
  }

  ghost predicate DirOk(vm: Vm, k: Kinds, e: EnvId) {
    e in vm.dirs ==> vm.dirs[e] in k && k[vm.dirs[e]] == DirOf(e) && vm.dirs[e] in vm.ppRef
  }

  ghost predicate NoRepeats(s: seq<Frame>) {
    forall i, j :: 0 <= i < j < |s| ==> s[i] != s[j]
  }

  ghost predicate Inv(vm: Vm, k: Kinds, held: set<Frame>) {
    && NoRepeats(vm.free)
    && (forall f :: PageOk(vm, held, f))
    && (forall w :: WordOk(vm, k, w))
    && (forall f :: KindOk(vm, k, f))
    && (forall e :: DirOk(vm, k, e))
  }

  /** A page that counts no reference is named nowhere. */
  lemma UncountedIsUnnamed(vm: Vm, f: Frame)
    requires Refs(vm, f) == 0
    ensures (forall w :: w in vm.mem ==> vm.mem[w].frame != f) && (forall e :: e in vm.dirs ==> vm.dirs[e] != f)
  {
    forall w | w in vm.mem ensures vm.mem[w].frame != f {
      assert w !in WordsNaming(vm.mem, f);
    }
    forall e | e in vm.dirs ensures vm.dirs[e] != f {
      assert e !in EnvsNaming(vm.dirs, f);
    }
  }

  lemma NamedIsCounted(vm: Vm, w: Word)
    requires w in vm.mem
    ensures Refs(vm, vm.mem[w].frame) > 0
  {
    assert w in WordsNaming(vm.mem, vm.mem[w].frame);
  }

  // ---------- Each operation keeps it ----------

  lemma UnmapKeeps(vm: Vm, k: Kinds, held: set<Frame>, w: Word)
    requires Inv(vm, k, held) && w in vm.mem && w.frame in k && k[w.frame].TableAt?
    ensures vm.mem[w].frame in vm.ppRef && vm.ppRef[vm.mem[w].frame] > 0
    ensures Inv(Unmap(vm, w), k, held)
  {
    var g := vm.mem[w].frame;
    assert WordOk(vm, k, w) && PageOk(vm, held, g);
    NamedIsCounted(vm, w);
    var t := Unmap(vm, w);
    forall f ensures PageOk(t, held, f) {
      assert PageOk(vm, held, f);
      WordsAfterClear(vm.mem, w, f);
    }
    forall x ensures WordOk(t, k, x) { assert WordOk(vm, k, x); }
    forall f ensures KindOk(t, k, f) { assert KindOk(vm, k, f); }
    forall e ensures DirOk(t, k, e) { assert DirOk(vm, k, e); }
  }

  lemma MapKeeps(vm: Vm, k: Kinds, held: set<Frame>, w: Word, f: Frame, perm: nat)
    requires Inv(vm, k, held) && w.frame in k && k[w.frame].TableAt? && w.idx < NPTENTRIES
    requires f in vm.ppRef && f !in k && f !in vm.free
    ensures w in vm.mem ==> vm.mem[w].frame in vm.ppRef && vm.ppRef[vm.mem[w].frame] > 0
    ensures Inv(Map(vm, w, f, perm), k, held - {f})
  {
    if w in vm.mem {
      assert WordOk(vm, k, w) && PageOk(vm, held, vm.mem[w].frame);
      NamedIsCounted(vm, w);
    }
    var t := Map(vm, w, f, perm);
    assert t.mem == (vm.mem - {w})[w := Entry(f, Present(perm))];
    forall x ensures PageOk(t, held - {f}, x) {
      assert PageOk(vm, held, x);
      if w in vm.mem {
        WordsAfterClear(vm.mem, w, x);
      } else {
        assert vm.mem - {w} == vm.mem;
      }
      WordsAfterSet(vm.mem - {w}, w, Entry(f, Present(perm)), x);
    }
    forall x ensures WordOk(t, k, x) { assert WordOk(vm, k, x); }
    forall x ensures KindOk(t, k, x) { assert KindOk(vm, k, x); }
    forall e ensures DirOk(t, k, e) { assert DirOk(vm, k, e); }
  }

  /** The kinds after a walk that may have created a table. */
  ghost function KindsAfterWalk(vm: Vm, k: Kinds, d: Frame, va: nat): Kinds {
    if Find(vm, d, va).Some? || vm.free == [] then k else k[vm.free[0] := TableAt(Word(d, Pdx(va)))]
  }

  lemma FreeIsUncounted(vm: Vm, k: Kinds, held: set<Frame>, f: Frame)
    requires Inv(vm, k, held) && (f in vm.free || f in held)
    ensures f in vm.ppRef && vm.ppRef[f] == 0 && Refs(vm, f) == 0 && f !in k
    ensures forall w :: w in vm.mem ==> vm.mem[w].frame != f && w.frame != f
    ensures forall e :: e in vm.dirs ==> vm.dirs[e] != f
  {
    assert PageOk(vm, held, f) && KindOk(vm, k, f);
    UncountedIsUnnamed(vm, f);
    forall w | w in vm.mem ensures w.frame != f { assert WordOk(vm, k, w); }
  }

  lemma WalkKeeps(vm: Vm, k: Kinds, held: set<Frame>, e: EnvId, va: nat)
    requires Inv(vm, k, held) && e in vm.dirs && va < UTOP && forall f :: f in vm.free ==> f in vm.ppRef
    requires Walk(vm, vm.dirs[e], va).Some?
    ensures var k' := KindsAfterWalk(vm, k, vm.dirs[e], va);
      var (vm', w) := Walk(vm, vm.dirs[e], va).value;
      Inv(vm', k', held) && w.frame in k' && k'[w.frame] == TableAt(Word(vm.dirs[e], Pdx(va)))
  {
    var d := vm.dirs[e];
    var k' := KindsAfterWalk(vm, k, d, va);
    var (t, w) := Walk(vm, d, va).value;
    AddressSplits(va, va);
    assert DirOk(vm, k, e) && WordOk(vm, k, Word(d, Pdx(va)));
    if Find(vm, d, va).None? {
      var n := vm.free[0];
      FreeIsUncounted(vm, k, held, n);
      assert ClearPage(vm.mem, n) == vm.mem;
      forall f ensures PageOk(t, held, f) {
        assert PageOk(vm, held, f);
        WordsAfterSet(vm.mem, Word(d, Pdx(va)), Entry(n, PDE_PERM), f);
      }
      forall x ensures WordOk(t, k', x) { assert WordOk(vm, k, x); }
      forall f ensures KindOk(t, k', f) { assert KindOk(vm, k, f); }
      forall x ensures DirOk(t, k', x) { assert DirOk(vm, k, x); }
    }
  }

  lemma SetupKeeps(vm: Vm, k: Kinds, held: set<Frame>, e: EnvId)
    requires Inv(vm, k, held) && e !in vm.dirs && vm.free != [] && forall f :: f in vm.free ==> f in vm.ppRef
    ensures Inv(SetupVm(vm, e).value, k[vm.free[0] := DirOf(e)], held)
  {
    var p := vm.free[0];
    var t, k' := SetupVm(vm, e).value, k[p := DirOf(e)];
    FreeIsUncounted(vm, k, held, p);
    assert ClearPage(vm.mem, p) == vm.mem;
    forall f ensures PageOk(t, held, f) {
      assert PageOk(vm, held, f);
      EnvsAfterSet(vm.dirs, e, p, f);
    }
    forall x ensures WordOk(t, k', x) { assert WordOk(vm, k, x); }
    forall f ensures KindOk(t, k', f) { assert KindOk(vm, k, f); }
    forall x ensures DirOk(t, k', x) { assert DirOk(vm, k, x); }
  }

  ghost predicate EmptyPage(vm: Vm, f: Frame) {
    forall w :: w in vm.mem ==> w.frame != f
  }

  lemma DropTableKeeps(vm: Vm, k: Kinds, held: set<Frame>, w: Word)
    requires Inv(vm, k, held) && w in vm.mem && w.frame in k && k[w.frame].DirOf? && EmptyPage(vm, vm.mem[w].frame)
    ensures vm.mem[w].frame in vm.ppRef && vm.ppRef[vm.mem[w].frame] > 0
    ensures Inv(DropTable(vm, w), k - {vm.mem[w].frame}, held)
  {
    var g := vm.mem[w].frame;
    assert WordOk(vm, k, w) && PageOk(vm, held, g);
    NamedIsCounted(vm, w);
    var t, k' := DropTable(vm, w), k - {g};
    forall f ensures PageOk(t, held, f) {
      assert PageOk(vm, held, f);
      WordsAfterClear(vm.mem, w, f);
    }
    forall x ensures WordOk(t, k', x) { assert WordOk(vm, k, x); }
    forall f ensures KindOk(t, k', f) { assert KindOk(vm, k, f); }
    forall e ensures DirOk(t, k', e) { assert DirOk(vm, k, e); }
  }

  lemma DropDirKeeps(vm: Vm, k: Kinds, held: set<Frame>, e: EnvId)
    requires Inv(vm, k, held) && e in vm.dirs && EmptyPage(vm, vm.dirs[e])
    ensures vm.dirs[e] in vm.ppRef && vm.ppRef[vm.dirs[e]] > 0
    ensures Inv(DropDir(vm, e), k - {vm.dirs[e]}, held)
  {
    var d := vm.dirs[e];
    assert DirOk(vm, k, e) && PageOk(vm, held, d);
    assert e in EnvsNaming(vm.dirs, d);
    var t, k' := DropDir(vm, e), k - {d};
    forall f ensures PageOk(t, held, f) {
      assert PageOk(vm, held, f);
      EnvsAfterClear(vm.dirs, e, f);
    }
    forall x ensures WordOk(t, k', x) { assert WordOk(vm, k, x); }
    forall f ensures KindOk(t, k', f) { assert KindOk(vm, k, f); }
    forall x ensures DirOk(t, k', x) { assert DirOk(vm, k, x); }
  }

  // ---------- The flat map that the tables stand for ----------

  /** The page mapped at `va` in environment `e`, with its permissions. */
  function Flat(vm: Vm, e: EnvId, va: nat): Option<Entry> {
    if e in vm.dirs then Lookup(vm, vm.dirs[e], va) else None
  }

  /** One word of a page table serves one page of one environment. */
  lemma WordServesOnePage(vm: Vm, k: Kinds, held: set<Frame>, e: EnvId, va: nat, d: EnvId, vb: nat)
    requires Inv(vm, k, held) && e in vm.dirs && d in vm.dirs && va < UTOP && vb < UTOP
    requires Find(vm, vm.dirs[e], va).Some?
    ensures Find(vm, vm.dirs[e], va) == Find(vm, vm.dirs[d], vb) <==> e == d && va / PGSIZE == vb / PGSIZE
    ensures var w := Find(vm, vm.dirs[e], va).value;
      w.frame in k && k[w.frame] == TableAt(Word(vm.dirs[e], Pdx(va))) && w.idx < NPTENTRIES
  {
    AddressSplits(va, vb);
    assert DirOk(vm, k, e) && DirOk(vm, k, d);
    assert WordOk(vm, k, Word(vm.dirs[e], Pdx(va))) && WordOk(vm, k, Word(vm.dirs[d], Pdx(vb)));
  }

  lemma MapFlat(vm: Vm, k: Kinds, held: set<Frame>, e: EnvId, va: nat, f: Frame, perm: nat, d: EnvId, vb: nat)
    requires Inv(vm, k, held) && e in vm.dirs && va < UTOP && vb < UTOP && f in vm.ppRef
    requires Find(vm, vm.dirs[e], va).Some?
    requires var w := Find(vm, vm.dirs[e], va).value;
      w in vm.mem ==> vm.mem[w].frame in vm.ppRef && vm.ppRef[vm.mem[w].frame] > 0
    ensures Flat(Map(vm, Find(vm, vm.dirs[e], va).value, f, perm), d, vb) ==
      if e == d && va / PGSIZE == vb / PGSIZE then Some(Entry(f, Present(perm))) else Flat(vm, d, vb)
  {
    if d in vm.dirs {
      WordServesOnePage(vm, k, held, e, va, d, vb);
      assert DirOk(vm, k, d);
    }
  }

  lemma UnmapFlat(vm: Vm, k: Kinds, held: set<Frame>, e: EnvId, va: nat, d: EnvId, vb: nat)
    requires Inv(vm, k, held) && e in vm.dirs && va < UTOP && vb < UTOP
    requires Find(vm, vm.dirs[e], va).Some?
    requires var w := Find(vm, vm.dirs[e], va).value;
      w in vm.mem && vm.mem[w].frame in vm.ppRef && vm.ppRef[vm.mem[w].frame] > 0
    ensures Flat(Unmap(vm, Find(vm, vm.dirs[e], va).value), d, vb) ==
      if e == d && va / PGSIZE == vb / PGSIZE then None else Flat(vm, d, vb)
  {
    if d in vm.dirs {
      WordServesOnePage(vm, k, held, e, va, d, vb);
      assert DirOk(vm, k, d);
    }
  }

  lemma WalkFlat(vm: Vm, k: Kinds, held: set<Frame>, e: EnvId, va: nat, d: EnvId, vb: nat)
    requires Inv(vm, k, held) && e in vm.dirs && va < UTOP && vb < UTOP && forall f :: f in vm.free ==> f in vm.ppRef
    requires Walk(vm, vm.dirs[e], va).Some?
    ensures Flat(Walk(vm, vm.dirs[e], va).value.0, d, vb) == Flat(vm, d, vb)
  {
    if Find(vm, vm.dirs[e], va).None? {
      FreeIsUncounted(vm, k, held, vm.free[0]);
      assert ClearPage(vm.mem, vm.free[0]) == vm.mem;
      if d in vm.dirs {
        assert DirOk(vm, k, d) && DirOk(vm, k, e) && WordOk(vm, k, Word(vm.dirs[d], Pdx(vb)));
      }
    }
  }
}
