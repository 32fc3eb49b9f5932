/** The kernel as the user-level fork library sees it: per-environment page tables,
    physical page contents, run states and fault upcalls, changed only through
    system calls that either succeed or leave everything as it was.  How the
    kernel walks its two-level tables, picks physical pages or schedules is not
    modelled: each call may refuse for reasons of its own. */
module KernelModel {
  import opened Common
  import opened Mmu

  type EnvId = nat
  type Frame = nat
  type Byte = bv8

  /** A present page-table entry: the physical page it maps and its permission bits. */
  datatype Pte = Pte(frame: Frame, perm: uint32)

  /** The present entries of one environment's page table, by virtual page number. */
  type PageTable = map<Vpn, Pte>
  type AddressSpaces = map<EnvId, PageTable>

  datatype EnvStatus = NotRunnable | Runnable

  /** sys_exofork returns twice: the child's id in the parent, 0 in the child,
      or a negative error. */
  datatype ExoforkResult = ParentSide(eid: EnvId) | ChildSide | Failed

  function ZeroPage(): (page: seq<Byte>)
    ensures |page| == PGSIZE
    ensures forall i :: 0 <= i < |page| ==> page[i] == 0
  {
    seq(PGSIZE, _ => 0)
  }

  predicate WritableOrCow(perm: uint32) {
    Writable(perm) || Cow(perm)
  }

  /** Two mappings of one physical page may coexist when neither is writable or
      copy-on-write, or when both are copy-on-write and neither is writable. */
  predicate ShareablePair(p: uint32, q: uint32) {
    (WritableOrCow(p) || WritableOrCow(q)) ==>
      Cow(p) && !Writable(p) && Cow(q) && !Writable(q)
  }

  /** Mappings (e1, v1) and (e2, v2): if they are two distinct mappings of the
      same physical page, they are a shareable pair. */
  ghost predicate SafeAt(pt: AddressSpaces, e1: EnvId, v1: Vpn, e2: EnvId, v2: Vpn) {
    e1 in pt && v1 in pt[e1] && e2 in pt && v2 in pt[e2] && (e1 != e2 || v1 != v2) &&
    pt[e1][v1].frame == pt[e2][v2].frame
    ==> ShareablePair(pt[e1][v1].perm, pt[e2][v2].perm)
  }

  /** The central invariant: any two distinct mappings (in one environment or in
      two) of the same physical page are a shareable pair, so a page that is
      shared and writable-or-COW anywhere is COW and not writable everywhere. */
  ghost predicate SharingSafe(pt: AddressSpaces) {
    forall e1: EnvId, v1: Vpn, e2: EnvId, v2: Vpn :: SafeAt(pt, e1, v1, e2, v2)
  }

  /** No environment maps physical page f. */
  ghost predicate FrameUnused(pt: AddressSpaces, f: Frame) {
    forall e: EnvId, v: Vpn :: e in pt && v in pt[e] ==> pt[e][v].frame != f
  }

  /** The address spaces after installing pte at page v of environment e. */
  function Mapped(pt: AddressSpaces, e: EnvId, v: Vpn, pte: Pte): (r: AddressSpaces)
    requires e in pt
    ensures r.Keys == pt.Keys && v in r[e] && r[e][v] == pte
    ensures r[e] == pt[e][v := pte] && r[e].Keys == pt[e].Keys + {v}
    ensures forall e' :: e' in pt && e' != e ==> r[e'] == pt[e']
    ensures forall e': EnvId, v': Vpn :: e' in pt && v' in pt[e'] && (e' != e || v' != v) ==> v' in r[e'] && r[e'][v'] == pt[e'][v']
  {
    var table: PageTable := pt[e][v := pte];
    pt[e := table]
  }

  /** The address spaces after removing page v of environment e. */
  function Unmapped(pt: AddressSpaces, e: EnvId, v: Vpn): (r: AddressSpaces)
    requires e in pt
    ensures r.Keys == pt.Keys && r[e] == pt[e] - {v} && r[e].Keys == pt[e].Keys - {v}
    ensures forall e' :: e' in pt && e' != e ==> r[e'] == pt[e']
    ensures forall e': EnvId, v': Vpn :: e' in r && v' in r[e'] ==> v' in pt[e'] && r[e'][v'] == pt[e'][v']
  {
    var table: PageTable := pt[e] - {v};
    pt[e := table]
  }

  /** Removing a mapping cannot break the invariant. */
  lemma UnmapKeepsSafe(pt: AddressSpaces, e: EnvId, v: Vpn)
    requires e in pt && SharingSafe(pt)
    ensures SharingSafe(Unmapped(pt, e, v))
  {
    var r: AddressSpaces := Unmapped(pt, e, v);
    forall e1: EnvId, v1: Vpn, e2: EnvId, v2: Vpn ensures SafeAt(r, e1, v1, e2, v2) {
      assert SafeAt(pt, e1, v1, e2, v2);
    }
  }

  /** Installing a mapping of a page nobody maps cannot break the invariant. */
  lemma MapFreshKeepsSafe(pt: AddressSpaces, e: EnvId, v: Vpn, f: Frame, perm: uint32)
    requires e in pt && SharingSafe(pt) && FrameUnused(pt, f)
    ensures SharingSafe(Mapped(pt, e, v, Pte(f, perm)))
  {
    var r: AddressSpaces := Mapped(pt, e, v, Pte(f, perm));
    forall e1: EnvId, v1: Vpn, e2: EnvId, v2: Vpn ensures SafeAt(r, e1, v1, e2, v2) {
      if (e1 == e && v1 == v) || (e2 == e && v2 == v) {
        // one of them maps f, which no other mapping does
      } else {
        assert SafeAt(pt, e1, v1, e2, v2);
      }
    }
  }

  /** A new environment with an empty address space cannot break the invariant. */
  lemma AddEmptyKeepsSafe(pt: AddressSpaces, e: EnvId)
    requires e !in pt && SharingSafe(pt)
    ensures SharingSafe(pt[e := map[]])
  {
    var r: AddressSpaces := pt[e := map[]];
    forall e1: EnvId, v1: Vpn, e2: EnvId, v2: Vpn ensures SafeAt(r, e1, v1, e2, v2) {
      assert SafeAt(pt, e1, v1, e2, v2);
    }
  }

  /** Every physical page in use is below next and holds PGSIZE bytes. */
  ghost predicate PagesOk(mem: map<Frame, seq<Byte>>, next: Frame) {
    forall f :: f in mem ==> f < next && |mem[f]| == PGSIZE
  }

  /** Every entry of one table is present, maps a page in use, and lies under a
      present page-directory entry. */
  ghost predicate TableOk(t: PageTable, dir: set<nat>, mem: map<Frame, seq<Byte>>) {
    forall v :: v in t ==> t[v].frame in mem && v / NPTENTRIES in dir && Present(t[v].perm)
  }

  ghost predicate TablesOk(pt: AddressSpaces, pdir: map<EnvId, set<nat>>, mem: map<Frame, seq<Byte>>) {
    pt.Keys == pdir.Keys && forall e :: e in pt ==> TableOk(pt[e], pdir[e], mem)
  }

  lemma TableOkMap(t: PageTable, dir: set<nat>, mem: map<Frame, seq<Byte>>, v: Vpn, pte: Pte)
    requires TableOk(t, dir, mem) && pte.frame in mem && Present(pte.perm)
    ensures TableOk(t[v := pte], dir + {v / NPTENTRIES}, mem)
  {
  }

  lemma TableOkUnmap(t: PageTable, dir: set<nat>, mem: map<Frame, seq<Byte>>, v: Vpn)
    requires TableOk(t, dir, mem)
    ensures TableOk(t - {v}, dir, mem)
  {
  }

  lemma TablesOkUpdate(pt: AddressSpaces, pdir: map<EnvId, set<nat>>, mem: map<Frame, seq<Byte>>,
                       e: EnvId, t: PageTable, dir: set<nat>)
    requires TablesOk(pt, pdir, mem) && TableOk(t, dir, mem)
    ensures TablesOk(pt[e := t], pdir[e := dir], mem)
  {
  }

  lemma TablesOkGrow(pt: AddressSpaces, pdir: map<EnvId, set<nat>>, mem: map<Frame, seq<Byte>>,
                     f: Frame, page: seq<Byte>)
    requires TablesOk(pt, pdir, mem)
    ensures TablesOk(pt, pdir, mem[f := page])
  {
    forall e | e in pt ensures TableOk(pt[e], pdir[e], mem[f := page]) {
      assert TableOk(pt[e], pdir[e], mem);
    }
  }

  /** The kernel state.  Only present mappings are recorded; `pdir` holds, per
      environment, the page-directory indices whose entry is present; `curenv`
      is the environment that is running, i.e. the caller of every system call;
      `nextFrame` and `nextEnv` are the next physical page and environment id
      to hand out. */
  datatype KState = KState(
    pt: AddressSpaces,
    pdir: map<EnvId, set<nat>>,
    mem: map<Frame, seq<Byte>>,
    status: map<EnvId, EnvStatus>,
    upcall: map<EnvId, nat>,
    curenv: EnvId,
    nextFrame: Frame,
    nextEnv: EnvId)

  /** What holds of the kernel state between system calls: the running
      environment exists, every environment has a run state, pages in use and
      page tables are well formed, and the counters are beyond every id in use. */
  ghost predicate Inv(s: KState) {
    && s.curenv in s.pt
    && s.pt.Keys == s.status.Keys
    && s.upcall.Keys <= s.pt.Keys
    && (forall e :: e in s.pt ==> 0 < e < s.nextEnv)
    && PagesOk(s.mem, s.nextFrame)
    && TablesOk(s.pt, s.pdir, s.mem)
  }

  /** The next page to be allocated is mapped nowhere. */
  lemma NextFrameUnused(s: KState)
    requires Inv(s)
    ensures s.nextFrame !in s.mem && FrameUnused(s.pt, s.nextFrame)
  {
    forall e: EnvId, v: Vpn | e in s.pt && v in s.pt[e] ensures s.pt[e][v].frame != s.nextFrame {
      assert TableOk(s.pt[e], s.pdir[e], s.mem);
    }
  }

  /** A page that is mapped lies under a present page-directory entry. */
  lemma DirectoryCovers(s: KState, e: EnvId, v: Vpn)
    requires Inv(s) && e in s.pt && v in s.pt[e]
    ensures v / NPTENTRIES in s.pdir[e]
  {
    assert TableOk(s.pt[e], s.pdir[e], s.mem);
  }

  /** The state after sys_page_alloc installs the fresh page at v of env. */
  function AllocState(s: KState, env: EnvId, v: Vpn, perm: uint32): KState
    requires env in s.pt && env in s.pdir
  {
    s.(pt := Mapped(s.pt, env, v, Pte(s.nextFrame, perm)),
       pdir := s.pdir[env := s.pdir[env] + {v / NPTENTRIES}],
       mem := s.mem[s.nextFrame := ZeroPage()],
       nextFrame := s.nextFrame + 1)
  }

  /** sys_page_alloc keeps the invariant. */
  lemma AllocKeepsInv(s: KState, env: EnvId, v: Vpn, perm: uint32)
    requires Inv(s) && env in s.pt && Present(perm)
    ensures s.nextFrame !in s.mem && Inv(AllocState(s, env, v, perm))
  {
    var grown := s.mem[s.nextFrame := ZeroPage()];
    TablesOkGrow(s.pt, s.pdir, s.mem, s.nextFrame, ZeroPage());
    TableOkMap(s.pt[env], s.pdir[env], grown, v, Pte(s.nextFrame, perm));
    TablesOkUpdate(s.pt, s.pdir, grown, env, s.pt[env][v := Pte(s.nextFrame, perm)], s.pdir[env] + {v / NPTENTRIES});
  }

  /** The state after sys_page_map maps, at dv of dst, the page at sv of src. */
  function MapState(s: KState, src: EnvId, sv: Vpn, dst: EnvId, dv: Vpn, perm: uint32): KState
    requires src in s.pt && sv in s.pt[src] && dst in s.pt && dst in s.pdir
  {
    s.(pt := Mapped(s.pt, dst, dv, Pte(s.pt[src][sv].frame, perm)),
       pdir := s.pdir[dst := s.pdir[dst] + {dv / NPTENTRIES}])
  }

  /** sys_page_map keeps the invariant. */
  lemma MapKeepsInv(s: KState, src: EnvId, sv: Vpn, dst: EnvId, dv: Vpn, perm: uint32)
    requires Inv(s) && src in s.pt && sv in s.pt[src] && dst in s.pt && Present(perm)
    ensures Inv(MapState(s, src, sv, dst, dv, perm))
  {
    var pte := Pte(s.pt[src][sv].frame, perm);
    assert TableOk(s.pt[src], s.pdir[src], s.mem);
    TableOkMap(s.pt[dst], s.pdir[dst], s.mem, dv, pte);
    TablesOkUpdate(s.pt, s.pdir, s.mem, dst, s.pt[dst][dv := pte], s.pdir[dst] + {dv / NPTENTRIES});
  }

  /** sys_page_unmap keeps the invariant; the page-directory entry stays present. */
  lemma UnmapKeepsInv(s: KState, env: EnvId, v: Vpn)
    requires Inv(s) && env in s.pt
    ensures Inv(s.(pt := Unmapped(s.pt, env, v)))
  {
    TableOkUnmap(s.pt[env], s.pdir[env], s.mem, v);
    TablesOkUpdate(s.pt, s.pdir, s.mem, env, s.pt[env] - {v}, s.pdir[env]);
  }

  /** The state after sys_exofork: a new, not runnable environment with an empty
      address space. */
  function ExoforkState(s: KState): KState {
    s.(pt := s.pt[s.nextEnv := map[]], pdir := s.pdir[s.nextEnv := {}],
       status := s.status[s.nextEnv := NotRunnable], nextEnv := s.nextEnv + 1)
  }

  /** sys_exofork keeps the invariant, and the new id was not in use. */
  lemma ExoforkKeepsInv(s: KState)
    requires Inv(s)
    ensures s.nextEnv !in s.pt && Inv(ExoforkState(s))
  {
    TablesOkUpdate(s.pt, s.pdir, s.mem, s.nextEnv, map[], {});
  }

  /** Overwriting the contents of a page in use keeps the invariant. */
  lemma WriteKeepsInv(s: KState, f: Frame, page: seq<Byte>)
    requires Inv(s) && f in s.mem && |page| == PGSIZE
    ensures Inv(s.(mem := s.mem[f := page]))
  {
    TablesOkGrow(s.pt, s.pdir, s.mem, f, page);
  }

  /** The kernel, seen from user space: its state changes only through the
      system calls below. */
  class Kernel {
    var st: KState

    ghost predicate Valid()
      reads this
    {
      Inv(st)
    }

    /** A kernel in a well-formed state s, as booting leaves it. */
    constructor (s: KState)
      requires Inv(s)
      ensures Valid() && st == s
    {
      st := s;
    }

    /** The entry of the read-only page-table mirror `uvpt` for page vpn of the
        running environment: its permission bits, or 0 when it is not present. */
    function Uvpt(vpn: Vpn): (entry: uint32)
      reads this
      requires Valid()
      ensures Present(entry) <==> vpn in st.pt[st.curenv]
      ensures vpn in st.pt[st.curenv] ==> entry == st.pt[st.curenv][vpn].perm
      ensures vpn !in st.pt[st.curenv] ==> entry == 0
    {
      if vpn in st.pt[st.curenv] then st.pt[st.curenv][vpn].perm else 0
    }

    /** The entry of the read-only page-directory mirror `uvpd`. */
    function Uvpd(pdx: nat): (entry: uint32)
      reads this
      requires Valid()
      ensures Present(entry) <==> pdx in st.pdir[st.curenv]
    {
      if pdx in st.pdir[st.curenv] then PTE_P + PTE_W + PTE_U else 0
    }

    /** sys_getenvid. */
    method GetEnvId() returns (id: EnvId)
      requires Valid()
      ensures id == st.curenv && id in st.pt
    {
      id := st.curenv;
    }

    /** sys_page_alloc: map a fresh zero-filled page at va in env with perm. */
    method PageAlloc(env: EnvId, va: uint32, perm: uint32) returns (r: int)
      requires Valid()
      modifies this
      ensures Valid()
      ensures r == 0 || r < 0
      ensures r < 0 ==> unchanged(this)
      ensures r == 0 ==>
        && env in old(st.pt) && va % PGSIZE == 0 && va < UTOP
        && Present(perm) && User(perm)
        && old(st.nextFrame) !in old(st.mem)
        && st == AllocState(old(st), env, PageNum(va), perm)
    {
      if env !in st.pt || va % PGSIZE != 0 || va >= UTOP || !Present(perm) || !User(perm) {
        return -1;
      }
      if * {
        return -1;  // out of memory, or any other refusal of the kernel
      }
      AllocKeepsInv(st, env, PageNum(va), perm);
      st := AllocState(st, env, PageNum(va), perm);
      r := 0;
    }

    /** sys_page_map: map at dstva in dst the physical page mapped at srcva in src. */
    method PageMap(src: EnvId, srcva: uint32, dst: EnvId, dstva: uint32, perm: uint32) returns (r: int)
      requires Valid()
      modifies this
      ensures Valid()
      ensures r == 0 || r < 0
      ensures r < 0 ==> unchanged(this)
      ensures r == 0 ==>
        && src in old(st.pt) && dst in old(st.pt) && PageNum(srcva) in old(st.pt[src])
        && srcva % PGSIZE == 0 && srcva < UTOP && dstva % PGSIZE == 0 && dstva < UTOP
        && Present(perm) && User(perm)
        && st == MapState(old(st), src, PageNum(srcva), dst, PageNum(dstva), perm)
    {
      if src !in st.pt || dst !in st.pt || srcva % PGSIZE != 0 || srcva >= UTOP
         || dstva % PGSIZE != 0 || dstva >= UTOP || PageNum(srcva) !in st.pt[src]
         || !Present(perm) || !User(perm) {
        return -1;
      }
      if * {
        return -1;
      }
      MapKeepsInv(st, src, PageNum(srcva), dst, PageNum(dstva), perm);
      st := MapState(st, src, PageNum(srcva), dst, PageNum(dstva), perm);
      r := 0;
    }

    /** sys_page_unmap: remove the mapping at va in env, if there is one. */
    method PageUnmap(env: EnvId, va: uint32) returns (r: int)
      requires Valid()
      modifies this
      ensures Valid()
      ensures r == 0 || r < 0
      ensures r < 0 ==> unchanged(this)
      ensures r == 0 ==>
        && env in old(st.pt) && va % PGSIZE == 0 && va < UTOP
        && st == old(st).(pt := Unmapped(old(st.pt), env, PageNum(va)))
    {
      if env !in st.pt || va % PGSIZE != 0 || va >= UTOP {
        return -1;
      }
      if * {
        return -1;
      }
      UnmapKeepsInv(st, env, PageNum(va));
      st := st.(pt := Unmapped(st.pt, env, PageNum(va)));
      r := 0;
    }

    /** sys_env_set_pgfault_upcall. */
    method SetPgfaultUpcall(env: EnvId, entry: nat) returns (r: int)
      requires Valid()
      modifies this
      ensures Valid()
      ensures r == 0 || r < 0
      ensures r < 0 ==> unchanged(this)
      ensures r == 0 ==> env in old(st.pt) && st == old(st).(upcall := old(st.upcall)[env := entry])
    {
      if env !in st.pt {
        return -1;
      }
      if * {
        return -1;
      }
      st := st.(upcall := st.upcall[env := entry]);
      r := 0;
    }

    /** sys_env_set_status. */
    method SetStatus(env: EnvId, s: EnvStatus) returns (r: int)
      requires Valid()
      modifies this
      ensures Valid()
      ensures r == 0 || r < 0
      ensures r < 0 ==> unchanged(this)
      ensures r == 0 ==> env in old(st.pt) && st == old(st).(status := old(st.status)[env := s])
    {
      if env !in st.pt {
        return -1;
      }
      if * {
        return -1;
      }
      st := st.(status := st.status[env := s]);
      r := 0;
    }

    /** sys_exofork: create a not-runnable environment with an empty address space.
        ChildSide is the same call as observed by the new environment once it runs;
        nothing further happens to the state on that side. */
    method Exofork() returns (res: ExoforkResult)
      requires Valid()
      modifies this
      ensures Valid()
      ensures !res.ParentSide? ==> unchanged(this)
      ensures res.ParentSide? ==>
        && res.eid == old(st.nextEnv) && res.eid !in old(st.pt) && res.eid > 0
        && st == ExoforkState(old(st))
    {
      if * {
        return Failed;
      } else if * {
        return ChildSide;
      }
      var e := st.nextEnv;
      ExoforkKeepsInv(st);
      st := ExoforkState(st);
      res := ParentSide(e);
    }

    /** memmove of one whole page of the running environment's memory, from the
        page at src to the page at dst (a user-level copy through the MMU). */
    method CopyPage(dst: Vpn, src: Vpn)
      requires Valid()
      requires dst in st.pt[st.curenv] && src in st.pt[st.curenv]
      requires Writable(st.pt[st.curenv][dst].perm)
      modifies this
      ensures Valid()
      ensures st == old(st).(mem := old(st.mem)[old(st.pt[st.curenv][dst].frame) := old(st.mem[st.pt[st.curenv][src].frame])])
    {
      var t := st.pt[st.curenv];
      assert TableOk(t, st.pdir[st.curenv], st.mem);
      WriteKeepsInv(st, t[dst].frame, st.mem[t[src].frame]);
      st := st.(mem := st.mem[t[dst].frame := st.mem[t[src].frame]]);
    }
  }
}
