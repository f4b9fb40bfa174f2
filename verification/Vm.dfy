/**
 * Physical memory and user page tables as one mutable object: kernel/kalloc.c
 * and the user half of kernel/vm.c, proved against the translation that the
 * hardware sees (Pte) and the record of who owns each page.
 */
module Vm {
  import opened Pages
  import opened PageTable
  import opened Teardown
  import opened VmState

  const KERNBASE: nat := 0x80000000

  /** What kfree leaves in a page. */
  function FreedPage(next: nat): (page: Page)
    ensures |page| == 512 && page[0] == next
  {
    var junk := Filled(JUNK_FREED);
    junk[0 := next]
  }

  /** The pages kinit hands to the allocator. */
  ghost predicate Managed(end: nat, pages: set<nat>)
  {
    end <= PHYSTOP && forall p: nat :: p in pages <==> (end + 4095) / 4096 <= p < 0x88000
  }

  /** The addresses kfree refuses. */
  predicate BadAddress(end: nat, pa: nat)
  {
    pa % PGSIZE != 0 || pa < end || pa >= PHYSTOP
  }

  lemma GoodAddress(end: nat, pages: set<nat>, c: nat)
    requires Managed(end, pages) && c in pages
    ensures !BadAddress(end, 4096 * c) && 4096 * c / 4096 == c
  {
  }

  lemma GoodPage(end: nat, pages: set<nat>, pa: nat)
    requires Managed(end, pages) && pa % 4096 == 0 && pa / 4096 in pages
    ensures !BadAddress(end, pa)
  {
  }

  lemma PageOf(end: nat, pages: set<nat>, pa: nat)
    requires Managed(end, pages) && !BadAddress(end, pa)
    ensures pa / 4096 in pages && 4096 * (pa / 4096) == pa
  {
  }

  lemma NoneFree(ram: map<nat, Page>, use: map<nat, Use>, pos: map<nat, nat>, tables: set<nat>, user: set<nat>,
                 end: nat)
    requires KERNBASE <= end && Managed(end, ram.Keys) && (forall p | p in ram :: |ram[p]| == 512)
    requires use.Keys == ram.Keys && (forall p | p in use :: use[p] == Held)
    requires pos == map[] && tables == {} && user == {}
    ensures Allocator(ram, use, pos, 0, tables, user)
  {
    assert 0 !in ram.Keys;
  }

  class Memory {
    const end: nat
    var ram: map<nat, Page>
    var freelist: nat
    var freePages: nat
    var totalPages: nat
    ghost var use: map<nat, Use>
    ghost var pos: map<nat, nat>
    ghost var sh: Shape
    ghost var user: map<nat, Place>
    ghost var roots: set<nat>

    ghost predicate AllocatorOk()
      reads this
    {
      && Allocator(ram, use, pos, freelist, sh.Keys, user.Keys)
      && freePages == |pos.Keys|
      && Managed(end, ram.Keys)
    }

    ghost predicate Valid()
      reads this
    {
      && Inv(ram, use, pos, freelist, sh, user) && freePages == |pos.Keys| && Managed(end, ram.Keys)
      && Roots(sh, roots)
    }

    constructor Kinit(end: nat, contents: map<nat, Page>)
      requires KERNBASE <= end <= PHYSTOP && Managed(end, contents.Keys)
      requires forall p | p in contents :: |contents[p]| == 512
      ensures Valid() && this.end == end && ram.Keys == contents.Keys
      ensures sh == map[] && user == map[] && roots == {}
      ensures forall p | p in use :: use[p] == Free
      ensures freePages == totalPages == |ram.Keys|
    {
      hide Allocator;
      hide Managed;
      hide Inv;
      this.end := end;
      ram, freelist, freePages, totalPages := contents, 0, 0, 0;
      use, pos, sh, user, roots := map p | p in contents :: Held, map[], map[], map[], {};
      new;
      assert use.Keys == ram.Keys && pos.Keys == {};
      NoneFree(ram, use, pos, sh.Keys, user.Keys, end);
      Freerange(end, PHYSTOP);
      totalPages := freePages;
      AllFree(ram, use, pos, freelist, sh, user);
    }

    /** Frees the whole pages from start to stop, which are all in hand. */
    method Freerange(start: nat, stop: nat)
      requires AllocatorOk() && start == end && stop == PHYSTOP && use.Keys == ram.Keys
      requires forall c | c in use :: use[c] == Held
      modifies `ram, `freelist, `freePages, `use, `pos
      ensures AllocatorOk() && ram.Keys == old(ram).Keys && use.Keys == old(use).Keys
      ensures forall c | c in use :: use[c] == Free
    {
      hide Allocator;
      hide FreedPage;
      var p := 4096 * PageUp(start);
      while p + PGSIZE <= stop
        invariant PageUp(start) <= p / 4096 <= 0x88000 && p % 4096 == 0
        invariant AllocatorOk() && ram.Keys == old(ram).Keys && use.Keys == old(use).Keys
        invariant forall c | c in use :: use[c] == if c < p / 4096 then Free else Held
      {
        assert !BadAddress(end, p);
        var bad := Kfree(p);
        p := p + PGSIZE;
      }
    }

    method GetMemoryStats() returns (free: nat, total: nat)
      requires Valid()
      ensures free == |set p | p in use && use[p] == Free| && total == totalPages
    {
      hide Inv;
      hide Roots;
      FreeSet(ram, use, pos, freelist, sh, user);
      free, total := freePages, totalPages;
    }

    method Kfree(pa: nat) returns (panic: bool)
      requires AllocatorOk()
      requires !BadAddress(end, pa) ==> pa / 4096 in use && use[pa / 4096] == Held
      modifies `ram, `freelist, `freePages, `use, `pos
      ensures panic == BadAddress(end, pa)
      ensures AllocatorOk() && ram.Keys == old(ram).Keys
      ensures panic ==> ram == old(ram) && use == old(use) && pos == old(pos) && freelist == old(freelist)
      ensures !panic ==> pa / 4096 in old(use) && pa / 4096 in old(ram)
      ensures !panic ==>
        && ram == old(ram)[pa / 4096 := FreedPage(old(freelist))]
        && use == old(use)[pa / 4096 := Free]
        && pos == old(pos)[pa / 4096 := |old(pos).Keys|]
        && freelist == pa
    {
      hide Allocator;
      hide Managed;
      hide BadAddress;
      hide FreedPage;
      panic := BadAddress(end, pa);
      if panic {
        return;
      }
      PageOf(end, ram.Keys, pa);
      AllocatorHead(ram, use, pos, freelist, sh.Keys, user.Keys);
      var c := pa / 4096;
      var next := freelist;
      var page := FreedPage(next);
      Push(ram, use, pos, next, sh.Keys, user.Keys, c, page);
      ram := ram[c := page];
      freelist := pa;
      freePages := freePages + 1;
      use := use[c := Free];
      pos := pos[c := |pos.Keys|];
      assert ram.Keys == old(ram).Keys;
    }

    method Kalloc() returns (pa: nat)
      requires AllocatorOk()
      modifies `ram, `freelist, `freePages, `use, `pos
      ensures AllocatorOk() && ram.Keys == old(ram).Keys
      ensures pa == 0 <==> old(pos).Keys == {}
      ensures freePages == if pa == 0 then old(freePages) else old(freePages) - 1
      ensures pa == 0 ==> ram == old(ram) && use == old(use) && pos == old(pos) && freelist == old(freelist)
      ensures pa != 0 ==>
        !BadAddress(end, pa) && pa == old(freelist) && pa / 4096 in old(use) && old(use)[pa / 4096] == Free
      ensures pa != 0 ==>
        && ram == old(ram)[pa / 4096 := Filled(JUNK_ALLOCATED)]
        && use == old(use)[pa / 4096 := Held]
        && pos == old(pos) - {pa / 4096}
        && freelist == Word(old(ram), pa / 4096, 0)
    {
      hide Allocator;
      hide Managed;
      hide BadAddress;
      AllocatorHead(ram, use, pos, freelist, sh.Keys, user.Keys);
      pa := freelist;
      if pa != 0 {
        GoodPage(end, ram.Keys, pa);
        var c := pa / 4096;
        var page := Filled(JUNK_ALLOCATED);
        Pop(ram, use, pos, freelist, sh.Keys, user.Keys, page);
        freelist := Word(ram, c, 0);
        freePages := freePages - 1;
        ram := ram[c := page];
        use := use[c := Held];
        pos := pos - {c};
        assert ram.Keys == old(ram).Keys;
      }
    }

    /** kalloc, then memset(page, 0, PGSIZE). */
    method ZeroedPage() returns (c: nat)
      requires Valid()
      modifies `ram, `freelist, `freePages, `use, `pos
      ensures Valid()
      ensures c == 0 <==> old(pos).Keys == {}
      ensures freePages == if c == 0 then old(freePages) else old(freePages) - 1
      ensures c == 0 ==> ram == old(ram) && use == old(use) && pos == old(pos)
      ensures c != 0 ==> Took(old(ram), old(use), sh, ram, use, c) && c in ram && ram[c] == Filled(0)
    {
      hide Inv;
      hide Roots;
      hide Allocator;
      hide Took;
      InvFacts(ram, use, pos, freelist, sh, user);
      InvAllocator(ram, use, pos, freelist, sh, user);
      ghost var ram0, use0, pos0, head0 := ram, use, pos, freelist;
      var pa := Kalloc();
      c := pa / 4096;
      if pa != 0 {
        var zero := Filled(0);
        InvAlloc(ram0, use0, pos0, head0, sh, user, c, Filled(JUNK_ALLOCATED));
        InvFill(ram, use, pos, freelist, sh, user, c, zero);
        ram := ram[c := zero];
        assert ram == ram0[c := zero];
        TookPage(ram0, use0, pos0, head0, sh, user, c, zero, ram);
      }
    }

    /** walk's allocating step: a fresh zeroed table behind slot k of table p. */
    method NewTable(p: nat, k: nat) returns (c: nat)
      requires Valid() && p in sh && sh[p].level > 0 && k < 512 && (sh[p].level == 2 ==> k < 256) && !V(Word(ram, p, k))
      modifies `ram, `freelist, `freePages, `use, `pos, `sh
      ensures Valid()
      ensures c == 0 <==> old(pos).Keys == {}
      ensures freePages == if c == 0 then old(freePages) else old(freePages) - 1
      ensures c == 0 ==> ram == old(ram) && use == old(use) && pos == old(pos) && sh == old(sh)
      ensures c != 0 ==> c !in old(sh) && sh == Hang(old(sh), p, k, c)
      ensures c != 0 ==> Child(ram, p, k) == c
      ensures forall q: nat, j: nat {:trigger Child(ram, q, j)} | q in old(sh) && (q != p || j != k) ::
                Child(ram, q, j) == Child(old(ram), q, j)
      ensures Extended(old(ram), old(use), old(sh), ram, use, sh)
    {
      hide V;
      hide Ppn;
      hide Inv;
      hide Roots;
      hide Extended;
      hide Managed;
      hide Took;
      hide Filled;
      InvKeys(ram, use, pos, freelist, sh, user);
      ExtendedRefl(ram, use, sh);
      hide RamOk;
      ghost var ram0, use0, pos0, head0 := ram, use, pos, freelist;
      c := ZeroedPage();
      if c == 0 {
        return;
      }
      TookTablePage(ram, use, pos, freelist, sh, user, p);
      TookFree(ram0, use0, sh, ram, use, c);
      RootsHang(ram0, use0, pos0, head0, sh, user, roots, p, k, c);
      ghost var sh2 := Hang(sh, p, k, c);
      var ram2 := Stored(ram, p, k, 1024 * c + 1);
      assert ram2.Keys == ram.Keys;
      HangStep(ram0, use0, pos0, head0, sh, user, c, ram, use, pos, freelist, p, k, ram2, sh2);
      ram := ram2;
      use := use[c := Table];
      sh := sh2;
    }

    /**
     * The slot of the last-level table for va, as the index of a word of
     * memory; 0 if there is none and none could be made.
     */
    method Walk(r: nat, va: nat, alloc: bool) returns (panic: bool, slot: nat)
      requires Valid() && IsRoot(sh, r)
      modifies `ram, `freelist, `freePages, `use, `pos, `sh
      ensures Valid() && panic == (va >= MAXVA)
      ensures Extended(old(ram), old(use), old(sh), ram, use, sh)
      ensures panic || !alloc ==> ram == old(ram) && use == old(use) && pos == old(pos) && sh == old(sh)
      ensures !panic ==> var t := LastTable(ram, r, va / 4096); slot == if t == 0 then 0 else 512 * t + va / 4096 % 512
      ensures !panic && alloc && slot == 0 ==> pos.Keys == {}
      ensures freePages <= old(freePages) <= freePages + 2
      ensures !panic && alloc && slot == 0 ==> old(freePages) <= 1
    {
      hide V;
      hide Ppn;
      hide Inv;
      hide Roots;
      hide Extended;
      hide Reached;
      hide PX;
      hide LastTable;
      hide Managed;
      slot := 0;
      panic := va >= MAXVA;
      var level: nat, p: nat := 2, r;
      var v := va / 4096;
      WalkStart(ram, use, pos, freelist, sh, user, r, v);
      if panic {
        return;
      }
      while level > 0
        invariant 0 <= level <= 2 && Valid() && IsRoot(sh, r)
        invariant Extended(old(ram), old(use), old(sh), ram, use, sh)
        invariant Reached(ram, sh, r, v, level, p)
        invariant freePages <= old(freePages) <= freePages + 2 - level
        invariant !alloc ==> ram == old(ram) && use == old(use) && pos == old(pos) && sh == old(sh)
      {
        var k := PX(level, v);
        IndexRange(level, v);
        ReachedLast(ram, sh, r, v, level, p);
        ReachedIn(ram, sh, r, v, level, p);
        if V(Word(ram, p, k)) {
          InvTree(ram, use, pos, freelist, sh, user);
          ReachedDown(ram, sh, r, v, level, p);
          p := Ppn(Word(ram, p, k));
        } else {
          if !alloc {
            return;
          }
          ghost var ram1, use1, sh1 := ram, use, sh;
          var c := NewTable(p, k);
          ExtendedTrans(old(ram), old(use), old(sh), ram1, use1, sh1, ram, use, sh);
          if c == 0 {
            return;
          }
          ReachedNew(ram1, sh1, r, v, level, p, c, ram, sh);
          p := c;
        }
        level := level - 1;
      }
      ReachedLast(ram, sh, r, v, 0, p);
      ReachedIn(ram, sh, r, v, 0, p);
      slot := 512 * p + v % 512;
    }

    method Walkaddr(r: nat, va: nat) returns (pa: nat)
      requires Valid() && IsRoot(sh, r)
      modifies `ram, `freelist, `freePages, `use, `pos, `sh
      ensures ram == old(ram) && use == old(use) && pos == old(pos) && sh == old(sh) && Valid()
      ensures pa == if va < MAXVA && U(Pte(ram, r, va / 4096)) then 4096 * Ppn(Pte(ram, r, va / 4096)) else 0
    {
      hide Inv;
      hide Roots;
      hide Extended;
      pa := 0;
      if va >= MAXVA {
        return;
      }
      var panic, slot := Walk(r, va, false);
      if slot == 0 {
        return;
      }
      var w := Word(ram, slot / 512, slot % 512);
      if !V(w) {
        return;
      }
      if !U(w) {
        return;
      }
      pa := 4096 * Ppn(w);
    }

    /** One round of mappages: map page pa at a. */
    method MapPage(r: nat, a: nat, pa: nat, perm: nat) returns (panic: bool, ok: bool)
      requires Valid() && IsRoot(sh, r) && perm < 1024 && IsLeaf(perm)
      requires a / 4096 < TRAPFRAME_VPN ==> IsHeld(use, pa / 4096)
      modifies `ram, `freelist, `freePages, `use, `pos, `sh, `user
      ensures Valid() && IsRoot(sh, r)
      ensures panic <==> a >= MAXVA || Pte(old(ram), r, a / 4096) != 0
      ensures !panic && !ok ==> pos.Keys == {}
      ensures freePages <= old(freePages) <= freePages + 2 && (!panic && !ok ==> old(freePages) <= 1)
      ensures panic ==> !ok
      ensures Mapped(old(ram), old(use), old(sh), ram, use, sh, r, a / 4096, if ok then 1 else 0, pa / 4096, perm)
    {
      hide V;
      hide Ppn;
      hide IsLeaf;
      hide Inv;
      hide Roots;
      hide Extended;
      hide Mapped;
      hide Pte;
      hide LastTable;
      hide Entry;
      ok := false;
      ghost var ram0, use0, sh0 := ram, use, sh;
      var slot;
      panic, slot := Walk(r, a, true);
      MappedNone(ram0, use0, sh0, ram, use, sh, r, a / 4096, pa / 4096, perm);
      if panic {
        return;
      }
      if slot == 0 {
        NoTable(ram, r, a / 4096);
        return;
      }
      var t, k := slot / 512, slot % 512;
      SlotFacts(ram, use, pos, freelist, sh, user, r, a / 4096);
      var w := Word(ram, t, k);
      if V(w) {
        panic := true;
        return;
      }
      ok := true;
      ghost var ram1, use1, user1 := ram, use, user;
      ram := Stored(ram, t, k, Entry(pa / 4096, perm));
      if a / 4096 < TRAPFRAME_VPN {
        use := use[pa / 4096 := User];
        user := user[pa / 4096 := Place(t, k)];
      }
      MapStep(ram0, use0, sh0, ram1, use1, pos, freelist, sh, user1, r, a / 4096, pa / 4096, perm, t, ram, use, user);
    }

    /** Maps the pages from pa on at va; on a failure half way the first n stay mapped. */
    method Mappages(r: nat, va: nat, size: nat, pa: nat, perm: nat) returns (panic: bool, ret: int, ghost n: nat)
      requires Valid() && IsRoot(sh, r) && perm < 1024 && IsLeaf(perm)
      requires forall p: nat {:trigger IsHeld(use, p)} |
                 pa / 4096 <= p < pa / 4096 + size / 4096 && va / 4096 + (p - pa / 4096) < TRAPFRAME_VPN :: IsHeld(use, p)
      modifies `ram, `freelist, `freePages, `use, `pos, `sh, `user
      ensures Valid() && IsRoot(sh, r)
      ensures n <= size / 4096
      ensures Mapped(old(ram), old(use), old(sh), ram, use, sh, r, va / 4096, n, pa / 4096, perm)
      ensures forall u: nat {:trigger Pte(old(ram), r, u)} | va / 4096 <= u < va / 4096 + n :: Pte(old(ram), r, u) == 0
      ensures va % 4096 != 0 || size % 4096 != 0 || size == 0 ==> panic
      ensures !panic ==> ret == if n == size / 4096 then 0 else -1
      ensures !panic && ret == -1 ==> pos.Keys == {}
      ensures freePages <= old(freePages)
      ensures (!panic ==> old(freePages) <= freePages + 2 * n + (if ret == -1 then 1 else 0))
      ensures va % 4096 == 0 && size % 4096 == 0 && size != 0 ==>
                (panic <==> n < size / 4096 && (va / 4096 + n >= VPN_LIMIT || Pte(old(ram), r, va / 4096 + n) != 0))
    {
      hide IsLeaf;
      hide Inv;
      hide Roots;
      hide Mapped;
      hide Pte;
      hide IsHeld;
      hide IsRoot;
      panic, ret, n := true, 0, 0;
      ghost var v, c := va / 4096, pa / 4096;
      assert Mapped(ram, use, sh, ram, use, sh, r, v, 0, c, perm) by {
        InvFacts(ram, use, pos, freelist, sh, user);
        ExtendedRefl(ram, use, sh);
        MappedNone(ram, use, sh, ram, use, sh, r, v, c, perm);
      }
      if va % PGSIZE != 0 || size % PGSIZE != 0 || size == 0 {
        return;
      }
      var a, last, p := va, va + size - PGSIZE, pa;
      while true
        invariant Valid() && IsRoot(sh, r)
        invariant a == va + 4096 * n && p == pa + 4096 * n && n < size / 4096
        invariant forall u: nat {:trigger Pte(old(ram), r, u)} | v <= u < v + n :: Pte(old(ram), r, u) == 0
        invariant Mapped(old(ram), old(use), old(sh), ram, use, sh, r, v, n, c, perm)
        invariant freePages <= old(freePages) <= freePages + 2 * n
        decreases last - a
      {
        ghost var ram1, use1, sh1 := ram, use, sh;
        assert a / 4096 == v + n && p / 4096 == c + n;
        MappedRest(old(ram), old(use), old(sh), ram, use, sh, r, v, n, c, perm, size / 4096);
        var ok;
        panic, ok := MapPage(r, a, p, perm);
        MappedNext(old(ram), old(use), old(sh), ram1, use1, sh1, r, v, n, c, perm, if ok then 1 else 0, ram, use, sh);
        if panic {
          return;
        }
        if !ok {
          ret := -1;
          return;
        }
        n := n + 1;
        if a == last {
          break;
        }
        a, p := a + PGSIZE, p + PGSIZE;
      }
    }

    /** kfree of a page in hand. */
    method FreePage(c: nat)
      requires AllocatorOk() && c in use && c in ram && use[c] == Held
      modifies `ram, `freelist, `freePages, `use, `pos
      ensures AllocatorOk() && RamOk(ram) && ram.Keys == old(ram).Keys
      ensures use == old(use)[c := Free]
      ensures forall p {:trigger ram[p]} | p in ram && p != c :: ram[p] == old(ram)[p]
    {
      hide Allocator;
      hide Managed;
      hide BadAddress;
      hide FreedPage;
      hide RamOk;
      GoodAddress(end, ram.Keys, c);
      var bad := Kfree(4096 * c);
      AllocatorRam(ram, use, pos, freelist, sh.Keys, user.Keys);
    }

    /** User page c goes back to the allocator or to the caller; its entry is still there. */
    method Release(c: nat, doFree: bool)
      requires Valid() && c in use && use[c] == User
      modifies `ram, `freelist, `freePages, `use, `pos, `user
      ensures AllocatorOk() && RamOk(ram)
      ensures user == old(user) - {c} && use.Keys == old(use).Keys
      ensures forall p {:trigger use[p]} | p in use ::
                use[p] == if p == c then (if doFree then Free else Held) else old(use)[p]
      ensures ram.Keys == old(ram).Keys
      ensures forall p {:trigger ram[p]} | p in ram && (p != c || !doFree) :: ram[p] == old(ram)[p]
    {
      hide Inv;
      hide Roots;
      hide Allocator;
      hide Managed;
      hide RamOk;
      InvKeys(ram, use, pos, freelist, sh, user);
      Released(ram, use, pos, freelist, sh, user, c);
      use := use[c := Held];
      user := user - {c};
      assert use.Keys == old(use).Keys;
      if doFree {
        FreePage(c);
        assert use.Keys == old(use).Keys;
      }
    }

    /** The end of a round of uvmunmap: free the page, then clear the entry. */
    method ClearEntry(r: nat, v: nat, t: nat, k: nat, doFree: bool)
      requires Valid() && IsRoot(sh, r) && v < VPN_LIMIT && t == LastTable(ram, r, v) != 0 && k == v % 512
      requires t in ram && k < |ram[t]| && Pte(ram, r, v) == Word(ram, t, k) != 0
      requires doFree ==> v < TRAPFRAME_VPN
      modifies `ram, `freelist, `freePages, `use, `pos, `user
      ensures Valid()
      ensures Unmapped(old(ram), old(use), sh, old(user), ram, use, user, r, v, 1, if doFree then Free else Held)
    {
      hide V;
      hide Ppn;
      hide Inv;
      hide Roots;
      hide Allocator;
      hide Unmapped;
      hide Pte;
      hide LastTable;
      hide InRange;
      hide IsLeaf;
      hide Managed;
      hide Stored;
      hide Word;
      ghost var ram0, use0, pos0, head0, user0 := ram, use, pos, freelist, user;
      var c := Ppn(Word(ram, t, k));
      OnlyThere(ram, use, pos, freelist, sh, user, r, v);
      InvAllocator(ram, use, pos, freelist, sh, user);
      InvFacts(ram, use, pos, freelist, sh, user);
      if v < TRAPFRAME_VPN {
        Release(c, doFree);
      }
      ghost var ram1 := ram;
      StoredKeys(ram, t, k, 0);
      ram := Stored(ram, t, k, 0);
      UnmapStep(ram0, use0, pos0, head0, sh, user0, r, v, t, c, if doFree then Free else Held,
                ram1, use, pos, freelist, user, ram);
    }

    /** One round of uvmunmap: a hole is passed over. */
    method UnmapPage(r: nat, a: nat, doFree: bool) returns (panic: bool)
      requires Valid() && IsRoot(sh, r)
      requires doFree ==> a / 4096 < TRAPFRAME_VPN
      modifies `ram, `freelist, `freePages, `use, `pos, `sh, `user
      ensures Valid() && sh == old(sh)
      ensures panic ==> a >= MAXVA || (Pte(old(ram), r, a / 4096) != 0 && !IsLeaf(Pte(old(ram), r, a / 4096)))
      ensures a >= MAXVA ==> panic
      ensures panic ==> ram == old(ram) && use == old(use) && user == old(user)
      ensures !panic ==>
        Unmapped(old(ram), old(use), sh, old(user), ram, use, user, r, a / 4096, 1, if doFree then Free else Held)
    {
      hide V;
      hide Ppn;
      hide Inv;
      hide Roots;
      hide Extended;
      hide Allocator;
      hide Unmapped;
      hide Pte;
      hide LastTable;
      var slot;
      panic, slot := Walk(r, a, false);
      if panic {
        return;
      }
      var v := a / 4096;
      if slot == 0 {
        NoTable(ram, r, v);
        UnmappedHole(ram, use, pos, freelist, sh, user, r, v, if doFree then Free else Held);
        return;
      }
      var t, k := slot / 512, slot % 512;
      SlotFacts(ram, use, pos, freelist, sh, user, r, v);
      var w := Word(ram, t, k);
      if !V(w) {
        UnmappedHole(ram, use, pos, freelist, sh, user, r, v, if doFree then Free else Held);
        return;
      }
      if w % 1024 == 1 {
        panic := true;
        return;
      }
      ClearEntry(r, v, t, k, doFree);
    }

    method Uvmunmap(r: nat, va: nat, npages: nat, doFree: bool) returns (panic: bool)
      requires Valid() && IsRoot(sh, r)
      requires doFree ==> va / 4096 + npages <= TRAPFRAME_VPN
      modifies `ram, `freelist, `freePages, `use, `pos, `sh, `user
      ensures Valid() && sh == old(sh)
      ensures panic <==> va % 4096 != 0 || (npages > 0 && va / 4096 + npages > VPN_LIMIT)
      ensures !panic ==> Unmapped(old(ram), old(use), sh, old(user), ram, use, user, r, va / 4096, npages,
                                  if doFree then Free else Held)
    {
      hide Inv;
      hide Roots;
      hide Unmapped;
      hide Pte;
      hide Managed;
      hide IsLeaf;
      hide IsRoot;
      hide InRange;
      panic := true;
      if va % PGSIZE != 0 {
        return;
      }
      ghost var to := if doFree then Free else Held;
      InvKeys(ram, use, pos, freelist, sh, user);
      UnmappedNone(ram, use, sh, user, r, va / 4096, to);
      var a := va;
      ghost var i := 0;
      while a < va + npages * PGSIZE
        invariant a == va + 4096 * i && i <= npages
        invariant Valid() && sh == old(sh)
        invariant Unmapped(old(ram), old(use), sh, old(user), ram, use, user, r, va / 4096, i, to)
        invariant i > 0 ==> va / 4096 + i <= VPN_LIMIT
      {
        assert a / 4096 == va / 4096 + i;
        ghost var ram1, use1, user1 := ram, use, user;
        if a < MAXVA && Pte(ram, r, a / 4096) != 0 {
          OnlyThere(ram, use, pos, freelist, sh, user, r, a / 4096);
        }
        panic := UnmapPage(r, a, doFree);
        if panic {
          return;
        }
        UnmappedNext(old(ram), old(use), sh, old(user), ram1, use1, user1, ram, use, user, r, va / 4096, i, 1, to);
        i := i + 1;
        a := a + PGSIZE;
      }
      panic := false;
    }

    method Uvmdealloc(r: nat, oldsz: nat, newsz: nat) returns (sz: nat)
      requires Valid() && IsRoot(sh, r) && oldsz <= TRAPFRAME_VPN * 4096
      modifies `ram, `freelist, `freePages, `use, `pos, `sh, `user
      ensures Valid() && sh == old(sh)
      ensures sz == if newsz < oldsz then newsz else oldsz
      ensures Unmapped(old(ram), old(use), sh, old(user), ram, use, user, r, PageUp(sz), PageUp(oldsz) - PageUp(sz),
                       Free)
    {
      hide Inv;
      hide Roots;
      hide Unmapped;
      hide Managed;
      hide IsRoot;
      InvKeys(ram, use, pos, freelist, sh, user);
      UnmappedNone(ram, use, sh, user, r, PageUp(if newsz < oldsz then newsz else oldsz), Free);
      if newsz >= oldsz {
        return oldsz;
      }
      if 4096 * PageUp(newsz) < 4096 * PageUp(oldsz) {
        var npages := (4096 * PageUp(oldsz) - 4096 * PageUp(newsz)) / PGSIZE;
        var panic := Uvmunmap(r, 4096 * PageUp(newsz), npages, true);
      }
      return newsz;
    }

    /** A page that mappages could not map goes back to the free list. */
    method PutBack(c: nat)
      requires Valid() && c in use && c in ram && use[c] == Held
      modifies `ram, `freelist, `freePages, `use, `pos
      ensures Valid() && ram.Keys == old(ram).Keys && use == old(use)[c := Free]
      ensures |pos.Keys| == |old(pos).Keys| + 1
      ensures SameMaps(old(ram), sh, ram, sh)
      ensures forall p {:trigger ram[p]} | p in ram && p != c :: ram[p] == old(ram)[p]
    {
      hide Inv;
      hide Roots;
      hide Allocator;
      hide Managed;
      hide BadAddress;
      hide SameMaps;
      hide Filled;
      InvAllocator(ram, use, pos, freelist, sh, user);
      InvFree(ram, use, pos, freelist, sh, user, c, FreedPage(freelist));
      GoodAddress(end, ram.Keys, c);
      var bad := Kfree(4096 * c);
    }

    /** kalloc, memset and mappages of one page; the page goes back if it could not be mapped. */
    method MapZero(r: nat, v: nat, perm: nat) returns (panic: bool, ok: bool)
      requires Valid() && IsRoot(sh, r) && v < TRAPFRAME_VPN && perm < 1024 && IsLeaf(perm)
      modifies `ram, `freelist, `freePages, `use, `pos, `sh, `user
      ensures Valid() && IsRoot(sh, r)
      ensures panic <==> Pte(old(ram), r, v) != 0 && old(pos).Keys != {}
      ensures ok ==> !panic && Pte(old(ram), r, v) == 0
      ensures ok ==> old(freePages) <= freePages + 3
      ensures !ok && !panic ==> old(freePages) <= 2
      ensures ok ==> Grew(old(ram), old(use), old(sh), ram, use, sh, r, v, 1, Zeros(perm))
      ensures !ok && !panic ==> Extended(old(ram), old(use), old(sh), ram, use, sh) && |pos.Keys| <= 1
    {
      hide Inv;
      hide Roots;
      hide Took;
      hide Mapped;
      hide Grew;
      hide Extended;
      hide IsLeaf;
      hide Pte;
      hide Managed;
      hide IsRoot;
      hide Filled;
      panic, ok := false, false;
      ghost var ram0, use0, sh0 := ram, use, sh;
      InvKeys(ram, use, pos, freelist, sh, user);
      ExtendedRefl(ram, use, sh);
      var c := ZeroedPage();
      if c == 0 {
        return;
      }
      ghost var ram1, use1 := ram, use;
      TookSame(ram0, use0, sh0, ram1, use1, c, r, v);
      var ret;
      ghost var n;
      assert 4096 * v / 4096 == v && 4096 * c / 4096 == c;
      panic, ret, n := Mappages(r, 4096 * v, PGSIZE, 4096 * c, perm);
      if panic {
        return;
      }
      if ret != 0 {
        ghost var ram2, use2 := ram, use;
        MappedHeld(ram1, use1, sh0, ram2, use2, sh, r, v, c, perm);
        PutBack(c);
        GaveBack(ram0, use0, sh0, c, ram1, use1, ram2, use2, sh, ram, use, r, v, perm);
        return;
      }
      assert Pte(ram1, r, v) == 0;
      GrewOne(ram0, use0, sh0, c, ram1, use1, ram, use, sh, r, v, perm, Zeros(perm));
      ok := true;
    }

    method LazyAlloc(r: nat, va: nat) returns (panic: bool, ret: int)
      requires Valid() && IsRoot(sh, r) && va < TRAPFRAME_VPN * 4096
      modifies `ram, `freelist, `freePages, `use, `pos, `sh, `user
      ensures Valid() && IsRoot(sh, r)
      ensures panic <==> old(pos).Keys != {} && Pte(old(ram), r, va / 4096) != 0 && !U(Pte(old(ram), r, va / 4096))
      ensures !panic && Pte(old(ram), r, va / 4096) != 0 ==> (ret == 0 <==> U(Pte(old(ram), r, va / 4096)))
      ensures !panic && ret == 0 && Pte(old(ram), r, va / 4096) == 0 ==>
                Grew(old(ram), old(use), old(sh), ram, use, sh, r, va / 4096, 1, Zeros(PTE_R + PTE_W + PTE_U))
      ensures !panic && (ret != 0 || Pte(old(ram), r, va / 4096) != 0) ==>
                Extended(old(ram), old(use), old(sh), ram, use, sh)
      ensures !panic && ret != 0 ==> ret == -1 && |pos.Keys| <= 1
      ensures !panic && ret != 0 ==> old(freePages) <= 2
    {
      hide Inv;
      hide Roots;
      hide Grew;
      hide Extended;
      hide Pte;
      hide Managed;
      hide IsRoot;
      hide Ppn;
      panic, ret := false, 0;
      InvKeys(ram, use, pos, freelist, sh, user);
      ExtendedRefl(ram, use, sh);
      var a := va / 4096 * 4096;
      if Pte(ram, r, va / 4096) != 0 {
        OnlyThere(ram, use, pos, freelist, sh, user, r, va / 4096);
      }
      var pa := Walkaddr(r, a);
      assert !U(0);
      if pa != 0 {
        return;
      }
      var ok;
      assert IsLeaf(PTE_R + PTE_W + PTE_U);
      panic, ok := MapZero(r, a / 4096, PTE_R + PTE_W + PTE_U);
      if !panic && !ok {
        ret := -1;
      }
    }

    method Uvmcreate() returns (r: nat)
      requires Valid()
      modifies `ram, `freelist, `freePages, `use, `pos, `sh, `roots
      ensures roots == if r == 0 then old(roots) else old(roots) + {r}
      ensures Valid() && SameMaps(old(ram), old(sh), ram, sh)
      ensures r == 0 <==> old(pos).Keys == {}
      ensures freePages == if r == 0 then old(freePages) else old(freePages) - 1
      ensures r == 0 ==> ram == old(ram) && use == old(use) && sh == old(sh)
      ensures r != 0 ==> r !in old(sh) && IsRoot(sh, r) && sh == old(sh)[r := Node(2, r, 0, 0, 0)]
      ensures r != 0 ==> r in old(use) && old(use)[r] == Free && use == old(use)[r := Table]
      ensures r != 0 ==> forall v: nat {:trigger Pte(ram, r, v)} | v < VPN_LIMIT :: Pte(ram, r, v) == 0
      ensures SameData(old(ram), old(use), ram)
    {
      hide Inv;
      hide Roots;
      hide Pte;
      hide Managed;
      InvKeys(ram, use, pos, freelist, sh, user);
      hide RamOk;
      ghost var ram0, use0, sh0 := ram, use, sh;
      r := ZeroedPage();
      if r == 0 {
        return;
      }
      assert ZeroPage(ram, r);
      hide Filled;
      hide ZeroPage;
      InvRoot(ram, use, pos, freelist, sh, user, r, sh[r := Node(2, r, 0, 0, 0)]);
      RootsAdd(sh, roots, r);
      use := use[r := Table];
      sh := sh[r := Node(2, r, 0, 0, 0)];
      roots := roots + {r};
    }

    method Uvmalloc(r: nat, oldsz: nat, newsz: nat, xperm: nat) returns (panic: bool, sz: nat)
      requires Valid() && IsRoot(sh, r) && newsz <= TRAPFRAME_VPN * 4096
      requires xperm in {0, 4, 8, 12}
      modifies `ram, `freelist, `freePages, `use, `pos, `sh, `user
      ensures Valid() && IsRoot(sh, r)
      ensures newsz < oldsz ==>
        !panic && sz == oldsz && ram == old(ram) && use == old(use) && sh == old(sh) && user == old(user)
      ensures newsz >= oldsz && !panic ==> sz == newsz || sz == 0
      ensures newsz >= oldsz && !panic && sz == newsz ==>
        Grew(old(ram), old(use), old(sh), ram, use, sh, r, PageUp(oldsz), PageUp(newsz) - PageUp(oldsz),
             Zeros(PTE_R + PTE_U + xperm))
      ensures newsz >= oldsz && !panic && sz != newsz ==>
        Extended(old(ram), old(use), old(sh), ram, use, sh)
      ensures newsz >= oldsz && !panic && sz != newsz ==> old(freePages) < 3 * (PageUp(newsz) - PageUp(oldsz))
      ensures panic ==> exists u: nat {:trigger Pte(old(ram), r, u)} ::
        PageUp(oldsz) <= u < PageUp(newsz) && Pte(old(ram), r, u) != 0
    {
      hide Inv;
      hide Roots;
      hide Pte;
      hide Managed;
      hide Grew;
      hide Extended;
      hide Unmapped;
      hide IsRoot;
      panic, sz := false, oldsz;
      if newsz < oldsz {
        return;
      }
      var perm := PTE_R + PTE_U + xperm;
      assert IsLeaf(perm) && perm < 1024;
      hide IsLeaf;
      var start := 4096 * PageUp(oldsz);
      var a := start;
      ghost var v, n := PageUp(oldsz), 0;
      InvKeys(ram, use, pos, freelist, sh, user);
      ExtendedRefl(ram, use, sh);
      GrewNone(ram, use, sh, ram, use, sh, r, v, Zeros(perm));
      while a < newsz
        invariant a == 4096 * (v + n) && v + n <= PageUp(newsz)
        invariant Valid() && IsRoot(sh, r)
        invariant old(freePages) <= freePages + 3 * n
        invariant Grew(old(ram), old(use), old(sh), ram, use, sh, r, v, n, Zeros(perm))
        invariant forall u: nat {:trigger Pte(old(ram), r, u)} | v <= u < v + n :: Pte(old(ram), r, u) == 0
      {
        ghost var ram1, use1, sh1 := ram, use, sh;
        assert a / 4096 == v + n;
        GrewOutside(old(ram), old(use), old(sh), ram, use, sh, r, v, n, Zeros(perm), v + n);
        var ok;
        panic, ok := MapZero(r, a / 4096, perm);
        if panic {
          return;
        }
        if !ok {
          GrewNone(ram1, use1, sh1, ram, use, sh, r, v + n, Zeros(perm));
          GrewNext(old(ram), old(use), old(sh), ram1, use1, sh1, ram, use, sh, r, v, n, 0, Zeros(perm));
          ghost var ram2, use2, pos2, head2, user2 := ram, use, pos, freelist, user;
          var back := Uvmdealloc(r, a, start);
          GrewUndone(old(ram), old(use), old(sh), ram2, use2, pos2, head2, sh, user2, ram, use, user, r, v, n,
                     Zeros(perm));
          sz := 0;
          return;
        }
        GrewNext(old(ram), old(use), old(sh), ram1, use1, sh1, ram, use, sh, r, v, n, 1, Zeros(perm));
        n := n + 1;
        a := a + PGSIZE;
      }
      sz := newsz;
    }

    /** kalloc, then memmove of page from into the new page. */
    method CopiedPage(from: nat) returns (c: nat)
      requires Valid() && from in use && from in ram && use[from] == User
      modifies `ram, `freelist, `freePages, `use, `pos
      ensures Valid()
      ensures c == 0 <==> old(pos).Keys == {}
      ensures freePages == if c == 0 then old(freePages) else old(freePages) - 1
      ensures c == 0 ==> ram == old(ram) && use == old(use) && pos == old(pos)
      ensures c != 0 ==> Took(old(ram), old(use), sh, ram, use, c) && c in ram && ram[c] == old(ram)[from]
    {
      hide Inv;
      hide Roots;
      hide Allocator;
      hide Took;
      hide Managed;
      hide Filled;
      InvKeys(ram, use, pos, freelist, sh, user);
      InvAllocator(ram, use, pos, freelist, sh, user);
      ghost var ram0, use0, pos0, head0 := ram, use, pos, freelist;
      var pa := Kalloc();
      c := pa / 4096;
      if pa != 0 {
        var page := ram[from];
        InvAlloc(ram0, use0, pos0, head0, sh, user, c, Filled(JUNK_ALLOCATED));
        InvFill(ram, use, pos, freelist, sh, user, c, page);
        ram := ram[c := page];
        assert ram == ram0[c := page] && ram.Keys == ram0.Keys;
        TookPage(ram0, use0, pos0, head0, sh, user, c, page, ram);
      }
    }

    /** One round of uvmcopy; was is the memory before the first. */
    method CopyPage(r: nat, r': nat, v: nat, ghost was: map<nat, Page>) returns (panic: bool, ok: bool)
      requires Valid() && IsRoot(sh, r) && IsRoot(sh, r') && v < TRAPFRAME_VPN
      requires Pte(ram, r, v) == Pte(was, r, v)
      requires Pte(ram, r, v) != 0 ==>
        Ppn(Pte(ram, r, v)) in ram && WantPage(CopyOf(r, was), v, ram[Ppn(Pte(ram, r, v))])
      modifies `ram, `freelist, `freePages, `use, `pos, `sh, `user
      ensures Valid() && IsRoot(sh, r) && IsRoot(sh, r')
      ensures panic <==> Pte(was, r, v) == 0 || (Pte(old(ram), r', v) != 0 && old(pos).Keys != {})
      ensures ok ==> old(freePages) <= freePages + 3
      ensures !ok && !panic ==> old(freePages) <= 2
      ensures ok ==> !panic && Pte(old(ram), r', v) == 0
      ensures ok ==> Grew(old(ram), old(use), old(sh), ram, use, sh, r', v, 1, CopyOf(r, was))
      ensures !ok && !panic ==> Extended(old(ram), old(use), old(sh), ram, use, sh)
    {
      hide Inv;
      hide Roots;
      hide Took;
      hide Mapped;
      hide Grew;
      hide Extended;
      hide IsLeaf;
      hide V;
      hide Ppn;
      hide Pte;
      hide LastTable;
      hide Managed;
      hide WantPage;
      panic, ok := true, false;
      InvKeys(ram, use, pos, freelist, sh, user);
      ExtendedRefl(ram, use, sh);
      var bad, slot := Walk(r, 4096 * v, false);
      if slot == 0 {
        NoTable(ram, r, v);
        return;
      }
      SlotFacts(ram, use, pos, freelist, sh, user, r, v);
      var w := Word(ram, slot / 512, slot % 512);
      if !V(w) {
        return;
      }
      panic, ok := CopyInto(r, r', v, w, was);
    }

    /** The rest of the round: a copy of the page behind entry w is mapped in r'. */
    method CopyInto(r: nat, r': nat, v: nat, w: nat, ghost was: map<nat, Page>) returns (panic: bool, ok: bool)
      requires Valid() && IsRoot(sh, r) && IsRoot(sh, r') && v < TRAPFRAME_VPN
      requires w == Pte(ram, r, v) == Pte(was, r, v) && w != 0
      requires Ppn(w) in ram && WantPage(CopyOf(r, was), v, ram[Ppn(w)])
      modifies `ram, `freelist, `freePages, `use, `pos, `sh, `user
      ensures Valid() && IsRoot(sh, r) && IsRoot(sh, r')
      ensures panic <==> Pte(old(ram), r', v) != 0 && old(pos).Keys != {}
      ensures ok ==> old(freePages) <= freePages + 3
      ensures !ok && !panic ==> old(freePages) <= 2
      ensures ok ==> !panic && Pte(old(ram), r', v) == 0
      ensures ok ==> Grew(old(ram), old(use), old(sh), ram, use, sh, r', v, 1, CopyOf(r, was))
      ensures !ok && !panic ==> Extended(old(ram), old(use), old(sh), ram, use, sh)
    {
      hide Inv;
      hide Roots;
      hide Took;
      hide Mapped;
      hide Grew;
      hide Extended;
      hide V;
      hide Ppn;
      hide Pte;
      hide Managed;
      hide WantPage;
      hide IsRoot;
      hide InRange;
      hide IsLeaf;
      panic, ok := false, false;
      ghost var ram0, use0, sh0 := ram, use, sh;
      InvKeys(ram, use, pos, freelist, sh, user);
      ExtendedRefl(ram, use, sh);
      OnlyThere(ram, use, pos, freelist, sh, user, r, v);
      LeafFlags(w);
      var flags := w % 1024;
      var c := CopiedPage(Ppn(w));
      if c == 0 {
        return;
      }
      ghost var ram1, use1 := ram, use;
      TookSame(ram0, use0, sh0, ram1, use1, c, r', v);
      var ret;
      ghost var n;
      assert 4096 * v / 4096 == v && 4096 * c / 4096 == c;
      panic, ret, n := Mappages(r', 4096 * v, PGSIZE, 4096 * c, flags);
      KeepsRoots(ram1, use1, sh0, ram, use, sh, r', v, n, c, flags, r);
      if panic {
        return;
      }
      if ret != 0 {
        ghost var ram2, use2 := ram, use;
        MappedHeld(ram1, use1, sh0, ram2, use2, sh, r', v, c, flags);
        PutBack(c);
        GaveBack(ram0, use0, sh0, c, ram1, use1, ram2, use2, sh, ram, use, r', v, flags);
        return;
      }
      assert Pte(ram1, r', v) == 0;
      GrewOne(ram0, use0, sh0, c, ram1, use1, ram, use, sh, r', v, flags, CopyOf(r, was));
      ok := true;
    }

    /**
     * Copies the first sz bytes of address space r into r'.  It panics at the
     * first hole in r, unless memory runs out before: with three free pages
     * for each page to copy, the page itself and at most two tables, it
     * cannot, and a hole is what decides.
     */
    method Uvmcopy(r: nat, r': nat, sz: nat) returns (panic: bool, ret: int)
      requires Valid() && IsRoot(sh, r) && IsRoot(sh, r') && r != r' && sz <= TRAPFRAME_VPN * 4096
      modifies `ram, `freelist, `freePages, `use, `pos, `sh, `user
      ensures Valid() && IsRoot(sh, r) && IsRoot(sh, r')
      ensures !panic ==> ret == 0 || ret == -1
      ensures !panic && ret == 0 ==>
        Grew(old(ram), old(use), old(sh), ram, use, sh, r', 0, PageUp(sz), CopyOf(r, old(ram)))
      ensures !panic && ret == 0 ==> !HasHole(old(ram), r, PageUp(sz))
      ensures !panic && ret == -1 ==> Extended(old(ram), old(use), old(sh), ram, use, sh)
      ensures !panic && ret == -1 ==> old(freePages) < 3 * PageUp(sz)
      ensures !panic && ret == -1 ==>
        forall u: nat {:trigger Pte(old(ram), r, u)} | u < PageUp(sz) && Pte(old(ram), r,
                                                                             u) == 0 :: old(freePages) < 3 * u
      ensures panic ==> HasHole(old(ram), r, PageUp(sz)) || !NoneMapped(old(ram), r', PageUp(sz))
      ensures old(freePages) >= 3 * PageUp(sz) && NoneMapped(old(ram), r', PageUp(sz)) ==>
        (panic <==> HasHole(old(ram), r, PageUp(sz)))
    {
      hide Inv;
      hide Roots;
      hide Pte;
      hide Managed;
      hide Grew;
      hide Extended;
      hide Unmapped;
      hide IsRoot;
      hide WantPage;
      hide Ppn;
      panic, ret := false, 0;
      var i := 0;
      ghost var n, want := 0, CopyOf(r, ram);
      InvKeys(ram, use, pos, freelist, sh, user);
      ExtendedRefl(ram, use, sh);
      GrewNone(ram, use, sh, ram, use, sh, r', 0, want);
      ghost var pos0, head0, user0 := pos, freelist, user;
      while i < sz
        invariant i == 4096 * n && n <= PageUp(sz)
        invariant Valid() && IsRoot(sh, r) && IsRoot(sh, r')
        invariant old(freePages) <= freePages + 3 * n
        invariant Grew(old(ram), old(use), old(sh), ram, use, sh, r', 0, n, want)
        invariant forall u: nat {:trigger Pte(old(ram), r, u)} | u < n :: Pte(old(ram), r, u) != 0
        invariant forall u: nat {:trigger Pte(old(ram), r', u)} | u < n :: Pte(old(ram), r', u) == 0
      {
        ghost var ram1, use1, sh1 := ram, use, sh;
        assert i / 4096 == n;
        GrewOutside(old(ram), old(use), old(sh), ram, use, sh, r', 0, n, want, n);
        CopySource(old(ram), old(use), pos0, head0, old(sh), user0, ram, use, sh, r, r', 0, n, want, n);
        var ok;
        panic, ok := CopyPage(r, r', i / 4096, old(ram));
        if panic {
          return;
        }
        if !ok {
          GrewNone(ram1, use1, sh1, ram, use, sh, r', n, want);
          GrewNext(old(ram), old(use), old(sh), ram1, use1, sh1, ram, use, sh, r', 0, n, 0, want);
          ghost var ram2, use2, pos2, head2, user2 := ram, use, pos, freelist, user;
          var bad := Uvmunmap(r', 0, i / PGSIZE, true);
          GrewUndone(old(ram), old(use), old(sh), ram2, use2, pos2, head2, sh, user2, ram, use, user, r', 0, n, want);
          ret := -1;
          return;
        }
        GrewNext(old(ram), old(use), old(sh), ram1, use1, sh1, ram, use, sh, r', 0, n, 1, want);
        n := n + 1;
        i := i + PGSIZE;
      }
    }

    /** kfree of a page-table page. */
    method FreeTable(p: nat)
      requires AllocatorOk() && p in sh && p in use && use[p] == Table
      modifies `ram, `freelist, `freePages, `use, `pos, `sh
      ensures AllocatorOk() && RamOk(ram) && ram.Keys == old(ram).Keys
      ensures sh == old(sh) - {p} && use == old(use)[p := Free]
      ensures forall c {:trigger ram[c]} | c in ram && c != p :: ram[c] == old(ram)[c]
    {
      hide Allocator;
      hide Managed;
      hide RamOk;
      TableReleased(ram, use, pos, freelist, sh.Keys, user.Keys, p);
      ghost var use0, sh0 := use, sh;
      use := use[p := Held];
      sh := sh - {p};
      assert sh.Keys == sh0.Keys - {p};
      FreePage(p);
      assert use == use0[p := Free];
    }

    /** Frees table p and everything below it; the tables above it are loose. */
    method Freewalk(p: nat, ghost loose: set<nat>)
      requires AllocatorOk() && Ready(ram, sh, p, loose)
      modifies `ram, `freelist, `freePages, `use, `pos, `sh
      ensures AllocatorOk() && Tree(ram, sh, loose)
      ensures Torn(old(ram), old(use), old(sh), ram, use, sh, Subtree(old(sh), p), p)
      decreases if p in sh then sh[p].level else 0
    {
      hide Allocator;
      hide Managed;
      hide Ready;
      hide Walking;
      hide Torn;
      hide Tree;
      hide V;
      hide Ppn;
      hide IsLeaf;
      hide Parents;
      hide Subtree;
      hide IsChild;
      ghost var ram0, use0, sh0 := ram, use, sh;
      ReadyTree(ram, sh, p, loose);
      AllocatorHead(ram, use, pos, freelist, sh.Keys, user.Keys);
      StartWalking(ram, use, sh, p, loose);
      var i := 0;
      while i < 512
        invariant 0 <= i <= 512
        invariant AllocatorOk() && Walking(ram0, use0, sh0, ram, use, sh, p, i, loose)
      {
        var pte := Word(ram, p, i);
        if V(pte) && !IsLeaf(pte) {
          FreeChild(p, i, pte, loose, ram0, use0, sh0);
        } else if V(pte) {
          // panic("freewalk: leaf")
          AtChild(ram0, use0, sh0, ram, use, sh, p, i, loose, pte);
          assert false;
        } else {
          SkipStep(ram0, use0, sh0, ram, use, sh, p, i, loose);
        }
        i := i + 1;
      }
      ghost var ram1, use1, sh1 := ram, use, sh;
      AllocatorRam(ram, use, pos, freelist, sh.Keys, user.Keys);
      WalkedTable(ram0, use0, sh0, ram, use, pos, freelist, sh, user.Keys, p, 512, loose);
      FreeTable(p);
      WalkDone(ram0, use0, sh0, ram1, use1, sh1, ram, use, sh, p, loose);
    }

    /** One round of freewalk at a slot that leads to a lower table. */
    method FreeChild(p: nat, i: nat, pte: nat, ghost loose: set<nat>,
                     ghost ram0: map<nat, Page>, ghost use0: map<nat, Use>, ghost sh0: Shape)
      requires AllocatorOk() && i < 512 && pte == Word(ram, p, i) && V(pte)
      requires Ready(ram0, sh0, p, loose) && Parents(sh0) && p in sh0
      requires Walking(ram0, use0, sh0, ram, use, sh, p, i, loose)
      modifies `ram, `freelist, `freePages, `use, `pos, `sh
      ensures AllocatorOk() && Walking(ram0, use0, sh0, ram, use, sh, p, i + 1, loose)
      decreases sh0[p].level, 0
    {
      hide Allocator;
      hide Managed;
      hide Ready;
      hide Walking;
      hide Torn;
      hide Tree;
      hide V;
      hide Ppn;
      hide IsLeaf;
      hide Parents;
      hide Subtree;
      hide Slots;
      AtChild(ram0, use0, sh0, ram, use, sh, p, i, loose, pte);
      var child := Ppn(pte);
      ChildReady(ram0, use0, sh0, ram, use, sh, p, i, loose, child);
      ghost var ram1, use1, sh1 := ram, use, sh;
      Freewalk(child, loose + {p});
      ghost var ram2 := ram;
      TableStays(ram0, use0, sh0, ram1, use1, sh1, ram, use, pos, freelist, sh, user.Keys, p, i, loose, child);
      ram := Stored(ram, p, i, 0);
      assert ram.Keys == ram2.Keys;
      TakeStep(ram0, use0, sh0, ram1, use1, sh1, ram2, use, sh, ram, p, i, loose, child);
      Change(ram2, use, pos, freelist, sh.Keys, user.Keys, p, ram[p]);
    }

    /** Nothing may be mapped above sz: the trampoline and trapframe were unmapped before. */
    method Uvmfree(r: nat, sz: nat)
      requires Valid() && IsRoot(sh, r) && sz <= TRAPFRAME_VPN * 4096
      requires forall u: nat {:trigger Pte(ram, r, u)} | PageUp(sz) <= u < VPN_LIMIT :: Pte(ram, r, u) == 0
      modifies `ram, `freelist, `freePages, `use, `pos, `sh, `user, `roots
      ensures Valid() && roots == old(roots) - {r}
      ensures SpaceFreed(old(ram), old(use), old(sh), old(user), ram, use, sh, r)
    {
      hide Inv;
      hide Roots;
      hide Pte;
      hide Managed;
      hide Unmapped;
      hide Torn;
      hide Ready;
      hide Tree;
      hide Subtree;
      hide SpaceFreed;
      hide Allocator;
      ghost var ram0, use0, pos0, head0, user0 := ram, use, pos, freelist, user;
      InvKeys(ram, use, pos, freelist, sh, user);
      UnmappedNone(ram, use, sh, user, r, 0, Free);
      if sz > 0 {
        var panic := Uvmunmap(r, 0, 4096 * PageUp(sz) / PGSIZE, true);
      }
      ghost var ram1, use1, pos1, head1, sh1 := ram, use, pos, freelist, sh;
      EmptySpace(ram0, use0, sh, user0, ram, use, pos, freelist, user, r, PageUp(sz));
      InvAllocator(ram, use, pos, freelist, sh, user);
      Freewalk(r, {});
      FreedSpace(ram0, use0, pos0, head0, sh1, user0, ram1, use1, pos1, head1, user, ram, use, sh, r, PageUp(sz));
      RootsTorn(ram1, use1, pos1, head1, sh1, user, roots, ram, use, sh, r);
      roots := roots - {r};
      assert Inv(ram, use, pos, freelist, sh, user) by { MakeInv(ram, use, pos, freelist, sh, user); }
    }
  }
}
