/** User-level copy-on-write fork: the page-fault handler that privatises a COW
    page, the per-page sharing rule, and the orchestrator that builds a child. */
module LibFork {
  import opened Common
  import opened Mmu
  import opened KernelModel

  /** The user trap frame as the handler reads it: the faulting address and the
      error code (the saved registers are not modelled). */
  datatype UTrapframe = UTrapframe(faultVa: uint32, err: uint32)

  /** The page of the scratch address PFTEMP. */
  const PFTEMP_PAGE: Vpn := 0x7ff

  /** The page of the child's user exception stack. */
  const UXSTACK_PAGE: Vpn := 0xeebff

  /** The pages fork offers to duppage: those of [UTEXT, USTACKTOP). */
  const FIRST_PAGE: Vpn := 0x800
  const END_PAGE: nat := 0xeebfe

  /** PTE_P|PTE_W|PTE_U: the permission of a private, writable page. */
  const PERM_PRIVATE: uint32 := 0x007

  /** The page numbers above are those of the layout addresses. */
  lemma PageConstants()
    ensures PFTEMP_PAGE == PageNum(PFTEMP) && UXSTACK_PAGE == PageNum(UXSTACKTOP - PGSIZE)
    ensures FIRST_PAGE == PageNum(UTEXT) && END_PAGE == PageNum(USTACKTOP)
    ensures PERM_PRIVATE == PTE_P + PTE_W + PTE_U
  {
  }

  /** The bits of PTE_P|PTE_W|PTE_U: present, writable, user, not COW. */
  lemma PrivatePermBits()
    ensures Present(PERM_PRIVATE) && Writable(PERM_PRIVATE) && User(PERM_PRIVATE)
    ensures !Cow(PERM_PRIVATE)
  {
  }

  // ---------------------------------------------------------------- pgfault

  /** The address spaces after a successful COW fault on page vpn of env:
      PFTEMP is gone and vpn maps page f privately and writably. */
  function Privatized(pt: AddressSpaces, env: EnvId, vpn: Vpn, f: Frame): (r: AddressSpaces)
    requires env in pt
    ensures r.Keys == pt.Keys && vpn in r[env] && r[env][vpn] == Pte(f, PERM_PRIVATE)
    ensures forall e :: e in pt && e != env ==> r[e] == pt[e]
  {
    Mapped(Unmapped(pt, env, PFTEMP_PAGE), env, vpn, Pte(f, PERM_PRIVATE))
  }

  /** Privatising gives the faulting page a mapping of f with P|W|U, leaves
      PFTEMP unmapped and every other mapping of every environment as it was. */
  lemma PrivatizedSpec(pt: AddressSpaces, env: EnvId, vpn: Vpn, f: Frame)
    requires env in pt && vpn != PFTEMP_PAGE
    ensures var r := Privatized(pt, env, vpn, f);
      && r.Keys == pt.Keys
      && vpn in r[env] && r[env][vpn] == Pte(f, PTE_P + PTE_W + PTE_U)
      && PFTEMP_PAGE !in r[env]
      && (forall e :: e in pt && e != env ==> r[e] == pt[e])
      && (forall v :: v in pt[env] && v != vpn && v != PFTEMP_PAGE ==> v in r[env] && r[env][v] == pt[env][v])
      && r[env].Keys == pt[env].Keys - {PFTEMP_PAGE} + {vpn}
  {
  }

  /** A privatisation onto a page nobody maps keeps the sharing invariant. */
  lemma PrivatizeKeepsSafe(pt: AddressSpaces, env: EnvId, vpn: Vpn, f: Frame)
    requires env in pt && SharingSafe(pt) && FrameUnused(pt, f)
    ensures SharingSafe(Privatized(pt, env, vpn, f))
  {
    var u := Unmapped(pt, env, PFTEMP_PAGE);
    UnmapKeepsSafe(pt, env, PFTEMP_PAGE);
    assert FrameUnused(u, f);
    MapFreshKeepsSafe(u, env, vpn, f, PERM_PRIVATE);
  }

  /** The three mapping steps of pgfault (map the scratch page at PFTEMP, map it
      again at the faulting page, unmap PFTEMP) compose to Privatized. */
  lemma AllocMapUnmap(pt: AddressSpaces, env: EnvId, vpn: Vpn, scratch: Pte)
    requires env in pt && scratch.perm == PERM_PRIVATE
    ensures var steps := Unmapped(Mapped(Mapped(pt, env, PFTEMP_PAGE, scratch), env, vpn, scratch), env, PFTEMP_PAGE);
      && (vpn != PFTEMP_PAGE ==> steps == Privatized(pt, env, vpn, scratch.frame))
      && (vpn == PFTEMP_PAGE ==> steps == Unmapped(pt, env, PFTEMP_PAGE))
  {
    var t := pt[env];
    var stepped: PageTable := t[PFTEMP_PAGE := scratch][vpn := scratch] - {PFTEMP_PAGE};
    var unmapped: PageTable := t - {PFTEMP_PAGE};
    if vpn != PFTEMP_PAGE {
      var expected: PageTable := unmapped[vpn := scratch];
      assert stepped.Keys == expected.Keys;
      assert stepped == expected;
    } else {
      assert stepped.Keys == unmapped.Keys;
      assert stepped == unmapped;
    }
  }

  /** pgfault: turn a write fault on a COW page into a private writable copy. */
  method Pgfault(k: Kernel, utf: UTrapframe) returns (o: Outcome<()>)
    requires k.Valid()
    modifies k
    ensures k.Valid() && k.st.curenv == old(k.st.curenv)
    // The fault must be a write ...
    ensures !WriteFault(utf.err) ==> o == Abort && unchanged(k)
    // ... to a page whose entry carries PTE_COW.
    ensures WriteFault(utf.err) && !Cow(old(k.Uvpt(PageNum(utf.faultVa)))) ==>
      o == Abort && unchanged(k)
    // Success: the page at ROUNDDOWN(va) maps a fresh page holding the old page's bytes.
    ensures o.Return? && PageNum(utf.faultVa) != PFTEMP_PAGE ==>
      var vpn := PageNum(utf.faultVa);
      && vpn in old(k.st.pt[k.st.curenv])
      && old(k.st.nextFrame) !in old(k.st.mem)
      && k.st.pt == Privatized(old(k.st.pt), k.st.curenv, vpn, old(k.st.nextFrame))
      && k.st.mem == old(k.st.mem)[old(k.st.nextFrame) := old(k.st.mem[k.st.pt[k.st.curenv][vpn].frame])]
    // A COW page at PFTEMP itself is overwritten by the scratch page and then unmapped.
    ensures o.Return? && PageNum(utf.faultVa) == PFTEMP_PAGE ==>
      k.st.pt == Unmapped(old(k.st.pt), k.st.curenv, PFTEMP_PAGE)
    ensures o.Return? && old(SharingSafe(k.st.pt)) ==> SharingSafe(k.st.pt)
    ensures k.st.status == old(k.st.status) && k.st.upcall == old(k.st.upcall)
  {
    var addr := utf.faultVa;
    var err := utf.err;
    if !WriteFault(err) {
      return Abort;  // "pgfault not cause by write"
    }
    if !Cow(k.Uvpt(PageNum(addr))) {
      return Abort;  // "pgfault not cause by COW"
    }
    ghost var pt0: AddressSpaces, mem0: map<Frame, seq<Byte>> := k.st.pt, k.st.mem;
    var envid := k.GetEnvId();
    var vpn := PageNum(addr);
    ghost var g := pt0[envid][vpn].frame;
    NextFrameUnused(k.st);
    var r := k.PageAlloc(envid, PFTEMP, PTE_P + PTE_W + PTE_U);
    if r < 0 {
      return Abort;
    }
    ghost var scratch := Pte(old(k.st.nextFrame), PERM_PRIVATE);
    assert k.st.pt[envid][PFTEMP_PAGE] == scratch;
    assert vpn != PFTEMP_PAGE ==> k.st.pt[envid][vpn].frame == g && g in mem0;
    PrivatePermBits();
    assert scratch.frame !in mem0;
    k.CopyPage(PFTEMP_PAGE, vpn);
    if vpn != PFTEMP_PAGE {
      assert k.st.mem == mem0[scratch.frame := ZeroPage()][scratch.frame := mem0[g]];
      OverwriteTwice(mem0, scratch.frame, ZeroPage(), mem0[g]);
    }
    ghost var pt1: AddressSpaces := k.st.pt;
    r := k.PageMap(envid, PFTEMP, envid, RoundDown(addr), PTE_P + PTE_W + PTE_U);
    if r < 0 {
      return Abort;
    }
    assert k.st.pt == Mapped(pt1, envid, vpn, scratch);
    ghost var pt2: AddressSpaces := k.st.pt;
    r := k.PageUnmap(envid, PFTEMP);
    if r < 0 {
      return Abort;
    }
    assert k.st.pt == Unmapped(pt2, envid, PFTEMP_PAGE);
    AllocMapUnmap(pt0, envid, vpn, scratch);
    if vpn != PFTEMP_PAGE {
      if SharingSafe(pt0) {
        PrivatizeKeepsSafe(pt0, envid, vpn, scratch.frame);
      }
    } else {
      if SharingSafe(pt0) {
        UnmapKeepsSafe(pt0, envid, PFTEMP_PAGE);
      }
    }
    o := Return(());
  }

  // ---------------------------------------------------------------- duppage

  /** The permission duppage gives both sides of a shared page. */
  function DupPerm(perm: uint32): (r: uint32)
    ensures Present(r) && User(r) && !Writable(r)
    ensures Cow(r) <==> WritableOrCow(perm)
    ensures r == PTE_P + PTE_U || r == PTE_P + PTE_U + PTE_COW
  {
    if Writable(perm) || Cow(perm) then PTE_U + PTE_P + PTE_COW else PTE_U + PTE_P
  }

  /** The address spaces after duppage(child, pn) run by me: child maps my page
      with DupPerm, and when that perm is COW my own entry is rewritten to match. */
  function DupPageTable(pt: AddressSpaces, me: EnvId, child: EnvId, pn: Vpn): (r: AddressSpaces)
    requires me in pt && pn in pt[me] && child in pt
    ensures r.Keys == pt.Keys
    ensures pn in r[child] && r[child][pn] == Pte(pt[me][pn].frame, DupPerm(pt[me][pn].perm))
    ensures forall e :: e in pt && e != me && e != child ==> r[e] == pt[e]
  {
    var pte := Pte(pt[me][pn].frame, DupPerm(pt[me][pn].perm));
    var withChild := Mapped(pt, child, pn, pte);
    if Cow(pte.perm) then Mapped(withChild, me, pn, pte) else withChild
  }

  /** A mapping that could share a page with the source mapping can share it
      with the mapping duppage derives from the source. */
  lemma DupPermShareable(p: uint32, x: uint32)
    requires ShareablePair(p, x)
    ensures ShareablePair(DupPerm(p), x) && ShareablePair(x, DupPerm(p))
  {
  }

  /** Which mappings duppage writes: the child's page pn, and its own page pn
      when the page was writable or COW; every other mapping stays. */
  ghost predicate DupWrites(pt: AddressSpaces, me: EnvId, child: EnvId, pn: Vpn, e: EnvId, v: Vpn)
    requires me in pt && pn in pt[me]
  {
    v == pn && (e == child || (WritableOrCow(pt[me][pn].perm) && e == me))
  }

  lemma DupPageTableAt(pt: AddressSpaces, me: EnvId, child: EnvId, pn: Vpn, e: EnvId, v: Vpn)
    requires me in pt && pn in pt[me] && child in pt
    ensures var r := DupPageTable(pt, me, child, pn);
      && r.Keys == pt.Keys
      && (e in r ==> (v in r[e] <==> DupWrites(pt, me, child, pn, e, v) || v in pt[e]))
      && (e in r && DupWrites(pt, me, child, pn, e, v) ==>
            r[e][v] == Pte(pt[me][pn].frame, DupPerm(pt[me][pn].perm)))
      && (e in r && !DupWrites(pt, me, child, pn, e, v) && v in pt[e] ==> r[e][v] == pt[e][v])
  {
  }

  /** One pair of mappings after duppage is a shareable pair. */
  lemma DupPageKeepsPair(pt: AddressSpaces, me: EnvId, child: EnvId, pn: Vpn,
                         e1: EnvId, v1: Vpn, e2: EnvId, v2: Vpn)
    requires me in pt && pn in pt[me] && child in pt && SharingSafe(pt)
    ensures SafeAt(DupPageTable(pt, me, child, pn), e1, v1, e2, v2)
  {
    var src := pt[me][pn];
    var r: AddressSpaces := DupPageTable(pt, me, child, pn);
    DupPageTableAt(pt, me, child, pn, e1, v1);
    DupPageTableAt(pt, me, child, pn, e2, v2);
    var w1 := DupWrites(pt, me, child, pn, e1, v1);
    var w2 := DupWrites(pt, me, child, pn, e2, v2);
    if e1 in r && v1 in r[e1] && e2 in r && v2 in r[e2] && (e1 != e2 || v1 != v2) &&
       r[e1][v1].frame == r[e2][v2].frame {
      if w1 && w2 {
        assert r[e1][v1] == r[e2][v2];
      } else if w1 {
        assert r[e2][v2] == pt[e2][v2];
        if e2 != me || v2 != pn {
          assert SafeAt(pt, me, pn, e2, v2);
          DupPermShareable(src.perm, pt[e2][v2].perm);
        }
      } else if w2 {
        assert r[e1][v1] == pt[e1][v1];
        if e1 != me || v1 != pn {
          assert SafeAt(pt, e1, v1, me, pn);
          DupPermShareable(src.perm, pt[e1][v1].perm);
        }
      } else {
        assert SafeAt(pt, e1, v1, e2, v2);
      }
    }
  }

  /** duppage keeps the sharing invariant. */
  lemma DupPageKeepsSafe(pt: AddressSpaces, me: EnvId, child: EnvId, pn: Vpn)
    requires me in pt && pn in pt[me] && child in pt && SharingSafe(pt)
    ensures SharingSafe(DupPageTable(pt, me, child, pn))
  {
    var r: AddressSpaces := DupPageTable(pt, me, child, pn);
    forall e1: EnvId, v1: Vpn, e2: EnvId, v2: Vpn ensures SafeAt(r, e1, v1, e2, v2) {
      DupPageKeepsPair(pt, me, child, pn, e1, v1, e2, v2);
    }
  }

  /** duppage: share page pn with the environment envid, copy-on-write when the
      page is writable or already copy-on-write. */
  method Duppage(k: Kernel, envid: EnvId, pn: Vpn) returns (o: Outcome<int>)
    requires k.Valid()
    modifies k
    ensures k.Valid() && k.st.curenv == old(k.st.curenv)
    ensures o.Return? ==>
      && o.value == 0
      && envid in old(k.st.pt) && pn in old(k.st.pt[k.st.curenv]) && pn * PGSIZE < UTOP
      && k.st.pt == DupPageTable(old(k.st.pt), k.st.curenv, envid, pn)
    ensures envid !in old(k.st.pt) || pn !in old(k.st.pt[k.st.curenv]) ==> o == Abort && unchanged(k)
    ensures o.Return? && old(SharingSafe(k.st.pt)) ==> SharingSafe(k.st.pt)
    ensures k.st.pt.Keys == old(k.st.pt.Keys)
    ensures forall e :: e in old(k.st.pt) && e != k.st.curenv && e != envid ==> k.st.pt[e] == old(k.st.pt[e])
    ensures k.st.mem == old(k.st.mem) && k.st.nextFrame == old(k.st.nextFrame) && k.st.nextEnv == old(k.st.nextEnv)
    ensures k.st.status == old(k.st.status) && k.st.upcall == old(k.st.upcall)
  {
    ghost var pt0 := k.st.pt;
    var myenvid := k.GetEnvId();
    var pte := k.Uvpt(pn);
    var perm := PTE_U + PTE_P;
    if Writable(pte) || Cow(pte) {
      perm := perm + PTE_COW;
    }
    assert perm == DupPerm(pte);
    var va: uint32 := pn * PGSIZE;
    assert PageNum(va) == pn;
    var r := k.PageMap(myenvid, va, envid, va, perm);
    if r < 0 {
      return Abort;  // "duppage fault"
    }
    if Cow(perm) {
      r := k.PageMap(myenvid, va, myenvid, va, perm);
      if r < 0 {
        return Abort;
      }
    }
    assert k.st.pt == DupPageTable(pt0, myenvid, envid, pn);
    if SharingSafe(pt0) {
      DupPageKeepsSafe(pt0, myenvid, envid, pn);
    }
    o := Return(0);
  }

  // ---------------------------------------------------------------- fork

  /** The entry duppage gives the child (and the parent, when it is COW). */
  function DupEntry(pte: Pte): Pte {
    Pte(pte.frame, DupPerm(pte.perm))
  }

  /** The child's address space once the pages of P in [FIRST_PAGE, hi) are duplicated. */
  function ChildTable(P: PageTable, hi: nat): (c: PageTable)
    ensures forall pn: Vpn :: pn in c <==> pn in P && FIRST_PAGE <= pn < hi
  {
    map pn: Vpn | pn in P && FIRST_PAGE <= pn < hi :: DupEntry(P[pn])
  }

  /** The parent's address space once its pages in [FIRST_PAGE, hi) are duplicated:
      writable and COW pages there are now COW, everything else is as in P. */
  function ParentTable(P: PageTable, hi: nat): (t: PageTable)
    ensures t.Keys == P.Keys
  {
    map pn: Vpn | pn in P ::
      if FIRST_PAGE <= pn < hi && WritableOrCow(P[pn].perm) then DupEntry(P[pn]) else P[pn]
  }

  /** Duplicating page pn extends both tables by that page. */
  lemma TablesStep(P: PageTable, pn: Vpn)
    requires FIRST_PAGE <= pn
    ensures pn !in P ==> ChildTable(P, pn + 1) == ChildTable(P, pn) && ParentTable(P, pn + 1) == ParentTable(P, pn)
    ensures pn in P ==> ChildTable(P, pn + 1) == ChildTable(P, pn)[pn := DupEntry(P[pn])]
    ensures pn in P ==> ParentTable(P, pn)[pn] == P[pn]
    ensures pn in P && WritableOrCow(P[pn].perm) ==> ParentTable(P, pn + 1) == ParentTable(P, pn)[pn := DupEntry(P[pn])]
    ensures pn in P && !WritableOrCow(P[pn].perm) ==> ParentTable(P, pn + 1) == ParentTable(P, pn)
  {
    var c0: PageTable, c1: PageTable := ChildTable(P, pn), ChildTable(P, pn + 1);
    var p0: PageTable, p1: PageTable := ParentTable(P, pn), ParentTable(P, pn + 1);
    if pn in P {
      var c0': PageTable := c0[pn := DupEntry(P[pn])];
      assert c1.Keys == c0'.Keys;
      assert c1 == c0';
      if WritableOrCow(P[pn].perm) {
        var p0': PageTable := p0[pn := DupEntry(P[pn])];
        assert p1.Keys == p0'.Keys;
        assert p1 == p0';
      } else {
        assert p1 == p0;
      }
    } else {
      assert c1.Keys == c0.Keys;
      assert c1 == c0;
      assert p1 == p0;
    }
  }

  /** fork's loop, one page: duppage of page pn when both tables are built up to pn. */
  lemma DupPageStep(pt: AddressSpaces, me: EnvId, child: EnvId, P: PageTable, pn: Vpn)
    requires me in pt && child in pt && me != child && FIRST_PAGE <= pn && pn in P
    requires pt[me] == ParentTable(P, pn) && pt[child] == ChildTable(P, pn)
    ensures pn in pt[me]
    ensures var r := DupPageTable(pt, me, child, pn);
      && r.Keys == pt.Keys
      && r[me] == ParentTable(P, pn + 1) && r[child] == ChildTable(P, pn + 1)
      && forall e :: e in pt && e != me && e != child ==> r[e] == pt[e]
  {
    TablesStep(P, pn);
    assert pt[me][pn] == P[pn];
  }

  /** The address spaces after one pass of fork's loop at page pn: duppage when
      the page is mapped, nothing otherwise. */
  function ForkStep(pt: AddressSpaces, me: EnvId, child: EnvId, pn: Vpn): (r: AddressSpaces)
    requires me in pt && child in pt
    ensures r.Keys == pt.Keys
  {
    if pn in pt[me] then DupPageTable(pt, me, child, pn) else pt
  }

  /** One pass of fork's loop extends both tables by page pn. */
  lemma ForkStepTables(pt: AddressSpaces, me: EnvId, child: EnvId, P: PageTable, pn: Vpn)
    requires me in pt && child in pt && me != child && FIRST_PAGE <= pn
    requires pt[me] == ParentTable(P, pn) && pt[child] == ChildTable(P, pn)
    ensures var r := ForkStep(pt, me, child, pn);
      && r.Keys == pt.Keys
      && r[me] == ParentTable(P, pn + 1) && r[child] == ChildTable(P, pn + 1)
      && forall e :: e in pt && e != me && e != child ==> r[e] == pt[e]
  {
    TablesStep(P, pn);
    if pn in pt[me] {
      DupPageStep(pt, me, child, P, pn);
    }
  }

  /** The closed form of fork's loop state: pages of me below hi are duplicated
      into child, everything else is as in pt. */
  function Duplicated(pt: AddressSpaces, me: EnvId, child: EnvId, hi: nat): (r: AddressSpaces)
    requires me in pt && child in pt
    ensures r.Keys == pt.Keys
    ensures me != child ==> r[me].Keys == pt[me].Keys
    ensures forall pn: Vpn :: pn in r[child] <==> pn in pt[me] && FIRST_PAGE <= pn < hi
    ensures forall e :: e in pt && e != me && e != child ==> r[e] == pt[e]
  {
    pt[me := ParentTable(pt[me], hi)][child := ChildTable(pt[me], hi)]
  }

  /** Before the first pass nothing is duplicated. */
  lemma DuplicatedStart(pt: AddressSpaces, me: EnvId, child: EnvId)
    requires me in pt && child in pt && me != child && pt[child] == map[]
    ensures Duplicated(pt, me, child, FIRST_PAGE) == pt
  {
    var P := pt[me];
    assert ParentTable(P, FIRST_PAGE) == P;
    assert ChildTable(P, FIRST_PAGE) == map[];
    var r := Duplicated(pt, me, child, FIRST_PAGE);
    assert r.Keys == pt.Keys;
  }

  /** One pass of the loop moves the closed form on by one page. */
  lemma DuplicatedNext(pt: AddressSpaces, me: EnvId, child: EnvId, hi: nat)
    requires me in pt && child in pt && me != child && FIRST_PAGE <= hi < 0x10_0000
    ensures ForkStep(Duplicated(pt, me, child, hi), me, child, hi) == Duplicated(pt, me, child, hi + 1)
  {
    var cur: AddressSpaces := Duplicated(pt, me, child, hi);
    ForkStepTables(cur, me, child, pt[me], hi);
    var r: AddressSpaces := ForkStep(cur, me, child, hi);
    var want: AddressSpaces := Duplicated(pt, me, child, hi + 1);
    assert r.Keys == want.Keys;
    forall e | e in r ensures r[e] == want[e] {
    }
  }

  /** The address spaces once fork's loop has run over the pages below hi: one
      ForkStep per page, as the loop makes them. */
  function LoopTables(pt: AddressSpaces, me: EnvId, child: EnvId, hi: nat): (r: AddressSpaces)
    requires me in pt && child in pt && hi <= 0x10_0000
    ensures r.Keys == pt.Keys
  {
    if hi <= FIRST_PAGE then pt else ForkStep(LoopTables(pt, me, child, hi - 1), me, child, hi - 1)
  }

  /** The loop's pass-by-pass result is the closed form. */
  lemma {:induction false} LoopTablesClosed(pt: AddressSpaces, me: EnvId, child: EnvId, hi: nat)
    requires me in pt && child in pt && me != child && pt[child] == map[]
    requires FIRST_PAGE <= hi <= 0x10_0000
    ensures LoopTables(pt, me, child, hi) == Duplicated(pt, me, child, hi)
    decreases hi
  {
    if hi == FIRST_PAGE {
      DuplicatedStart(pt, me, child);
    } else {
      LoopTablesClosed(pt, me, child, hi - 1);
      DuplicatedNext(pt, me, child, hi - 1);
    }
  }

  /** One pass of fork's loop keeps the sharing invariant. */
  lemma ForkStepKeepsSafe(pt: AddressSpaces, me: EnvId, child: EnvId, pn: Vpn)
    requires me in pt && child in pt && SharingSafe(pt)
    ensures SharingSafe(ForkStep(pt, me, child, pn))
  {
    if pn in pt[me] {
      DupPageKeepsSafe(pt, me, child, pn);
    }
  }

  /** So does the whole loop. */
  lemma {:induction false} LoopTablesKeepSafe(pt: AddressSpaces, me: EnvId, child: EnvId, hi: nat)
    requires me in pt && child in pt && hi <= 0x10_0000 && SharingSafe(pt)
    ensures SharingSafe(LoopTables(pt, me, child, hi))
    decreases hi
  {
    if hi > FIRST_PAGE {
      LoopTablesKeepSafe(pt, me, child, hi - 1);
      ForkStepKeepsSafe(LoopTables(pt, me, child, hi - 1), me, child, hi - 1);
    }
  }

  /** fork's loop state after the pages below hi: the tables are LoopTables of
      the tables before the loop, and nothing else has changed. */
  ghost predicate Reached(s0: KState, s: KState, eid: EnvId, hi: nat) {
    && s0.curenv in s0.pt && eid in s0.pt && eid != s0.curenv && FIRST_PAGE <= hi <= END_PAGE
    && s.curenv == s0.curenv && s.pt == LoopTables(s0.pt, s0.curenv, eid, hi)
    && s.mem == s0.mem && s.nextFrame == s0.nextFrame && s.nextEnv == s0.nextEnv
    && s.status == s0.status && s.upcall == s0.upcall
  }

  /** One pass of fork's loop, at the address addr: when uvpd and uvpt both
      show the page present, hand it to duppage. */
  method ForkPage(k: Kernel, eid: EnvId, addr: uint32, ghost s0: KState, ghost hi: nat) returns (o: Outcome<()>)
    requires k.Valid() && Reached(s0, k.st, eid, hi) && addr == 4096 * hi && hi < END_PAGE
    modifies k
    ensures k.Valid() && k.st.curenv == old(k.st.curenv)
    ensures k.st.status == old(k.st.status)
    ensures o.Return? ==> Reached(s0, k.st, eid, hi + 1)
  {
    var me := k.st.curenv;
    PageStart(addr, hi);
    var pn := PageNum(addr);
    if pn in k.st.pt[me] {
      DirectoryCovers(k.st, me, pn);
    }
    if Present(k.Uvpd(DirIndex(addr))) && Present(k.Uvpt(pn)) {
      var r := Duppage(k, eid, pn);
      if r.Abort? {
        return Abort;  // duppage panics
      }
    }
    o := Return(());
  }

  /** fork's loop over [UTEXT, USTACKTOP), one page at a time. */
  method DupAddressSpace(k: Kernel, eid: EnvId) returns (o: Outcome<()>)
    requires k.Valid() && eid in k.st.pt && eid != k.st.curenv && k.st.pt[eid] == map[]
    modifies k
    ensures k.Valid() && k.st.curenv == old(k.st.curenv)
    ensures k.st.status == old(k.st.status)
    ensures o.Return? ==> Reached(old(k.st), k.st, eid, END_PAGE)
  {
    ghost var s0 := k.st;
    var addr: uint32 := UTEXT;
    ghost var hi: nat := FIRST_PAGE;
    while addr < USTACKTOP
      // addr is the start of page hi
      invariant UTEXT <= addr <= USTACKTOP && addr == 4096 * hi
      invariant k.Valid() && Reached(s0, k.st, eid, hi) && k.st.status == s0.status
      decreases USTACKTOP - addr
    {
      o := ForkPage(k, eid, addr, s0, hi);
      if o.Abort? {
        return;
      }
      NextPageBelow(addr, hi, USTACKTOP);
      addr, hi := addr + PGSIZE, hi + 1;
    }
    o := Return(());
  }

  /** The address spaces fork leaves behind: child is a new, empty space, the
      loop duplicates [UTEXT, USTACKTOP) into it, and its exception stack page
      is the fresh frame. */
  function ForkTables(pt: AddressSpaces, me: EnvId, child: EnvId, frame: Frame): AddressSpaces
    requires me in pt && child !in pt
  {
    Mapped(LoopTables(pt[child := map[]], me, child, END_PAGE), child, UXSTACK_PAGE, Pte(frame, PERM_PRIVATE))
  }

  lemma ForkTablesShape(pt: AddressSpaces, me: EnvId, child: EnvId, frame: Frame)
    requires me in pt && child !in pt
    ensures var r := ForkTables(pt, me, child, frame);
      && r.Keys == pt.Keys + {child}
      && r[me] == ParentTable(pt[me], END_PAGE)
      && r[child] == ChildTable(pt[me], END_PAGE)[UXSTACK_PAGE := Pte(frame, PERM_PRIVATE)]
      && forall e :: e in pt && e != me ==> r[e] == pt[e]
  {
    var pt1: AddressSpaces := pt[child := map[]];
    assert pt1[me] == pt[me];
    LoopTablesClosed(pt1, me, child, END_PAGE);
    var pt2: AddressSpaces := LoopTables(pt1, me, child, END_PAGE);
    assert pt2[child] == ChildTable(pt[me], END_PAGE);
  }

  /** fork: create a child that shares the pages of [UTEXT, USTACKTOP) copy-on-write,
      has a fresh exception stack, the given upcall entry, and is runnable.  The
      parent's handler registration (set_pgfault_handler) has happened before. */
  method Fork(k: Kernel, entry: nat) returns (o: Outcome<EnvId>)
    requires k.Valid()
    modifies k
    ensures k.Valid() && k.st.curenv == old(k.st.curenv)
    // Seen from the child: sys_exofork returned 0 and nothing else happened.
    ensures o == Return(0) ==> unchanged(k)
    ensures o.Return? && o.value != 0 ==>
      var c := o.value;
      var P := old(k.st.pt[k.st.curenv]);
      && c == old(k.st.nextEnv) && c !in old(k.st.pt)
      && k.st.pt.Keys == old(k.st.pt.Keys) + {c}
      && k.st.pt[k.st.curenv] == ParentTable(P, END_PAGE)
      && k.st.pt[c] == ChildTable(P, END_PAGE)[UXSTACK_PAGE := Pte(old(k.st.nextFrame), PERM_PRIVATE)]
      && (forall e :: e in old(k.st.pt) && e != k.st.curenv ==> k.st.pt[e] == old(k.st.pt[e]))
      && old(k.st.nextFrame) !in old(k.st.mem) && k.st.mem == old(k.st.mem)[old(k.st.nextFrame) := ZeroPage()]
      && k.st.status == old(k.st.status)[c := Runnable]
      && k.st.upcall == old(k.st.upcall)[c := entry]
    ensures o.Return? && old(SharingSafe(k.st.pt)) ==> SharingSafe(k.st.pt)
    // Atomicity: the status is set last, so a fork that fails part-way leaves
    // at most a new child that is not runnable.
    ensures o.Abort? ==>
      || k.st.status == old(k.st.status)
      || (old(k.st.nextEnv) !in old(k.st.status)
          && k.st.status == old(k.st.status)[old(k.st.nextEnv) := NotRunnable])
    ensures o.Abort? ==> forall e :: e in k.st.status && k.st.status[e] == Runnable ==>
      e in old(k.st.status) && old(k.st.status[e]) == Runnable
  {
    ghost var pt0: AddressSpaces := k.st.pt;
    ghost var safe := SharingSafe(pt0);
    ghost var me := k.st.curenv;
    var res := k.Exofork();
    if res.Failed? {
      return Abort;  // "fork fault 1"
    }
    if res.ChildSide? {
      return Return(0);
    }
    var eid := res.eid;
    ghost var s1 := k.st;
    assert s1.pt.Keys == pt0.Keys + {eid};
    if safe {
      AddEmptyKeepsSafe(pt0, eid);
    }
    var d := DupAddressSpace(k, eid);
    if d.Abort? {
      return Abort;
    }
    if safe {
      LoopTablesKeepSafe(s1.pt, me, eid, END_PAGE);
    }
    ghost var pt2: AddressSpaces, frame := k.st.pt, k.st.nextFrame;
    NextFrameUnused(k.st);
    var r := k.PageAlloc(eid, UXSTACKTOP - PGSIZE, PTE_U + PTE_W + PTE_P);
    if r < 0 {
      return Abort;  // "fork fault 2"
    }
    assert k.st.pt == ForkTables(pt0, me, eid, frame);
    ForkTablesShape(pt0, me, eid, frame);
    if safe {
      MapFreshKeepsSafe(pt2, eid, UXSTACK_PAGE, frame, PERM_PRIVATE);
    }
    r := k.SetPgfaultUpcall(eid, entry);
    if r < 0 {
      return Abort;  // "fork fault 3"
    }
    r := k.SetStatus(eid, Runnable);
    if r < 0 {
      return Abort;  // "fork fault 4"
    }
    OverwriteTwice(old(k.st.status), eid, NotRunnable, Runnable);
    o := Return(eid);
  }

  /** sfork is not implemented: it panics. */
  method Sfork() returns (o: Outcome<int>)
    ensures o == Abort
  {
    o := Abort;  // "sfork not implemented"
  }
}
