/**
 * Whole runs of the memory system: address spaces are created, grown eagerly
 * or lazily, shrunk, read and written, copied and destroyed in any order, and
 * allocations fail when memory runs out.
 */
module VmRun {
  import opened Pages
  import opened PageTable
  import opened VmState
  import opened Vm
  import opened Lazy
  import opened Words
  import opened Process
  import opened VmImages

  /** The requests of processes and of the kernel on their behalf; r is the page table of an address space. */
  datatype Request =
    | Create
    | Grow(r: nat, n: nat)
    | Extend(r: nat, n: nat)
    | Shrink(r: nat, sz: nat)
    | Touch(r: nat, a: nat, op: Access)
    | Fork(r: nat)
    | Destroy(r: nat)

  /** The request names an address space and stays below the trapframe. */
  predicate Sensible(images: map<nat, Space>, q: Request)
  {
    match q
    case Create => true
    case Grow(r, n) => r in images && 0 < n && images[r].sz + n <= TRAPFRAME_VPN * 4096
    case Extend(r, n) => r in images && 0 < n && images[r].sz + n <= TRAPFRAME_VPN * 4096
    case Shrink(r, sz) => r in images && sz <= images[r].sz
    case Touch(r, a, _) => r in images && a < TRAPFRAME_VPN * 4096
    case Fork(r) => r in images
    case Destroy(r) => r in images
  }

  /** The pages that a request may take, with their tables; with fewer free pages it may fail. */
  function Need(images: map<nat, Space>, q: Request): (n: nat)
    requires Sensible(images, q)
  {
    match q
    case Create => 1
    case Grow(r, n) => 3 * (PageUp(images[r].sz + n) - PageUp(images[r].sz))
    case Touch(r, a, _) => 3
    case Fork(r) => 3 * PageUp(images[r].sz) + 1
    case _ => 0
  }

  /** What a request that is met does to the images; `c` is a new address space or the word that was read. */
  ghost predicate Met(t: map<nat, Space>, t1: map<nat, Space>, q: Request, c: nat)
    requires Sensible(t, q) && TableOk(t)
  {
    match q
    case Create => c !in t && t1 == t[c := Space(0, map[], map[])]
    case Grow(r, n) => t1 == t[r := EagerSbrk(t[r], n)]
    case Extend(r, n) => t1 == t[r := LazySbrk(t[r], n)]
    case Shrink(r, sz) => t1 == t[r := Shrunk(t[r], sz)]
    case Touch(r, a, op) =>
      var out := LazyAccess(t[r], a, op); out.Fine? && t1 == t[r := out.space] && c == out.word
    case Fork(r) => c !in t && t1 == t[c := t[r]]
    case Destroy(r) => t1 == t - {r}
  }

  /** How a request ends: the kernel panics, the request is met, or it is refused. */
  datatype Result = Panic | Ok(c: nat) | Refused

  /** The kernel panics exactly when an untouched lazy page is to be copied, and refuses only an access beyond the
      size or for want of memory; a request that is refused changes no image. */
  ghost predicate Answer(t: map<nat, Space>, t1: map<nat, Space>, free: nat, q: Request, res: Result)
    requires Sensible(t, q) && TableOk(t)
  {
    && (res.Panic? ==> q.Fork? && Untouched(t[q.r]))
    && (q.Fork? && Untouched(t[q.r]) && free >= Need(t, q) ==> res.Panic?)
    && (res.Ok? ==> Met(t, t1, q, res.c))
    && (res.Refused? ==> t1 == t && (free < Need(t, q) || Killing(t, q)))
  }

  /** An access that kills the process: beyond its size, to no page of it. */
  ghost predicate Killing(t: map<nat, Space>, q: Request)
    requires Sensible(t, q) && TableOk(t)
  {
    q.Touch? && LazyAccess(t[q.r], q.a, q.op).Killed?
  }

  class Spaces {
    const memory: Memory
    var sizes: map<nat, nat>
    ghost var images: map<nat, Space>

    ghost predicate Sound()
      reads this, memory
    {
      && memory.Valid() && memory.roots == sizes.Keys
      && Fitted(memory.ram, sizes) && NoneHeld(memory.use)
      && Images(memory.ram, sizes, images)
      && memory.totalPages == |memory.ram.Keys|
    }

    /** The kernel has just started. */
    constructor (end: nat, contents: map<nat, Page>)
      requires KERNBASE <= end <= PHYSTOP && Managed(end, contents.Keys)
      requires forall p | p in contents :: |contents[p]| == 512
      ensures Sound() && sizes == map[] && images == map[] && fresh(memory) && memory.freePages == |contents.Keys|
    {
      sizes := map[];
      images := map[];
      memory := new Memory.Kinit(end, contents);
    }

    /** proc_pagetable(), as far as user memory goes. */
    method DoCreate() returns (r: nat)
      requires Sound()
      modifies this, memory
      ensures Sound()
      ensures r == 0 <==> old(memory.freePages) == 0
      ensures r == 0 ==> sizes == old(sizes) && images == old(images)
      ensures r != 0 ==> memory.freePages == old(memory.freePages) - 1 && ClearFrom(memory.ram, r, 0)
      ensures r != 0 ==>
        r !in old(images) && sizes == old(sizes)[r := 0] && images == old(images)[r := Space(0, map[], map[])]
    {
      hide Inv;
      hide Roots;
      hide Managed;
      hide Pte;
      hide Fitted;
      hide NoneHeld;
      hide SameMaps;
      hide SameData;
      hide IsRoot;
      hide ImageOk;
      hide OthersSame;
      hide Images;
      hide ClearFrom;
      RootsOf(memory.sh, sizes);
      ghost var ram0, use0, pos0, head0, sh0, user0 :=
        memory.ram, memory.use, memory.pos, memory.freelist, memory.sh, memory.user;
      r := memory.Uvmcreate();
      if r != 0 {
        NowClear(memory.ram, r);
        CreatedFits(ram0, use0, sh0, memory.ram, memory.sh, r, sizes);
        CreatedOthers(ram0, use0, pos0, head0, sh0, user0, memory.ram, memory.sh, r);
        FreshImage(memory.ram, r);
        ImagesStep(ram0, sh0, memory.ram, memory.sh, r, sizes, images, 0, Space(0, map[], map[]));
        NewSpace(ram0, sh0, sizes, images, r);
        sizes := sizes[r := 0];
        images := images[r := Space(0, map[], map[])];
      }
    }

    /** growproc() for n > 0. */
    method DoGrow(r: nat, n: nat) returns (ok: bool)
      requires Sound() && r in sizes && 0 < n && sizes[r] + n <= TRAPFRAME_VPN * 4096
      modifies this, memory
      ensures Sound() && old(r in images && images[r].sz == sizes[r])
      ensures ok ==> images == old(images)[r := EagerSbrk(old(images)[r], n)]
      ensures !ok ==>
        images == old(images) && old(memory.freePages) < 3 * (PageUp(old(sizes)[r] + n) - PageUp(old(sizes)[r]))
    {
      hide Inv;
      hide Roots;
      hide Managed;
      hide Pte;
      hide Grew;
      hide Extended;
      hide NoneHeld;
      hide IsRoot;
      hide PageUp;
      hide Images;
      hide Added;
      hide PagesOk;
      hide Open;
      hide OthersSame;
      hide Shows;
      RootsOf(memory.sh, sizes);
      SizeFits(memory.ram, sizes, r, sizes[r] + n);
      hide Fitted;
      ghost var ram0, use0, pos0, head0, sh0, user0 :=
        memory.ram, memory.use, memory.pos, memory.freelist, memory.sh, memory.user;
      var newsz := sizes[r] + n;
      ImageOf(ram0, sizes, images, r);
      ghost var s := images[r];
      var panic, sz := memory.Uvmalloc(r, sizes[r], newsz, PTE_W);
      ok := sz == newsz;
      if ok {
        GrewFits(ram0, use0, sh0, memory.ram, memory.use, memory.sh, r, PageUp(sizes[r]),
                 PageUp(newsz) - PageUp(sizes[r]),
                 Zeros(PTE_R + PTE_U + PTE_W), sizes, newsz);
        GrewShows(ram0, use0, pos0, head0, sh0, user0, memory.ram, memory.use, memory.sh, r,
                  PageUp(sizes[r]), PageUp(newsz) - PageUp(sizes[r]), s);
        GrownImage(s, n);
        AddedOpen(s, PageUp(sizes[r]), PageUp(newsz) - PageUp(sizes[r]), newsz);
        ShowsSize(memory.ram, r, Added(s, PageUp(sizes[r]), PageUp(newsz) - PageUp(sizes[r])), newsz);
        ImagesStep(ram0, sh0, memory.ram, memory.sh, r, sizes, images, newsz, EagerSbrk(s, n));
        assert sizes[r := newsz].Keys == sizes.Keys;
        sizes := sizes[r := newsz];
        images := images[r := EagerSbrk(s, n)];
      } else {
        ExtendedFits(ram0, use0, sh0, memory.ram, memory.use, memory.sh, sizes);
        ExtendedShows(ram0, use0, pos0, head0, sh0, user0, memory.ram, memory.use, memory.sh, r, s);
        ImagesStep(ram0, sh0, memory.ram, memory.sh, r, sizes, images, sizes[r], s);
        assert sizes[r := sizes[r]] == sizes && images[r := s] == images;
      }
    }

    /** sbrk() as it is now: only the size grows. */
    method DoExtend(r: nat, n: nat)
      requires Sound() && r in sizes && 0 < n && sizes[r] + n <= TRAPFRAME_VPN * 4096
      modifies this
      ensures Sound() && old(r in images)
      ensures images == old(images)[r := LazySbrk(old(images)[r], n)]
    {
      hide Inv;
      hide Roots;
      hide Managed;
      hide Pte;
      hide NoneHeld;
      hide IsRoot;
      hide PageUp;
      hide Images;
      hide PagesOk;
      hide Open;
      hide OthersSame;
      hide Shows;
      hide Fitted;
      LargerFits(memory.ram, sizes, r, sizes[r] + n);
      RootsOf(memory.sh, sizes);
      ImageOf(memory.ram, sizes, images, r);
      ghost var s := images[r];
      GrownImage(s, n);
      ShowsSize(memory.ram, r, s, sizes[r] + n);
      SizeOpen(s, sizes[r] + n);
      Unchanged(memory.ram, memory.use, memory.pos, memory.freelist, memory.sh, memory.user, r, s);
      ImagesStep(memory.ram, memory.sh, memory.ram, memory.sh, r, sizes, images, sizes[r] + n, LazySbrk(s, n));
      images := images[r := LazySbrk(s, n)];
      sizes := sizes[r := sizes[r] + n];
    }

    /** growproc() for n < 0. */
    method DoShrink(r: nat, sz: nat)
      requires Sound() && r in sizes && sz <= sizes[r]
      modifies this, memory
      ensures Sound() && old(r in images)
      ensures images == old(images)[r := Shrunk(old(images)[r], sz)]
    {
      hide Inv;
      hide Roots;
      hide Managed;
      hide Pte;
      hide NoneHeld;
      hide IsRoot;
      hide PageUp;
      hide Images;
      hide PagesOk;
      hide Open;
      hide OthersSame;
      hide Shows;
      hide Unmapped;
      RootsOf(memory.sh, sizes);
      SizeFits(memory.ram, sizes, r, sizes[r]);
      hide Fitted;
      PageUpMonotone(sz, sizes[r]);
      ghost var ram0, use0, pos0, head0, sh0, user0 :=
        memory.ram, memory.use, memory.pos, memory.freelist, memory.sh, memory.user;
      ImageOf(ram0, sizes, images, r);
      ghost var s := images[r];
      hide Shrunk;
      var left := memory.Uvmdealloc(r, sizes[r], sz);
      UnmappedFits(ram0, use0, memory.sh, user0, memory.ram, memory.use, memory.user, r, sizes, sz);
      UnmappedShows(ram0, use0, pos0, head0, sh0, user0, memory.ram, memory.use, memory.user, r, s, sz);
      ShrunkImage(s, sz, sz);
      ShrunkOpen(s, sz);
      ImagesStep(ram0, sh0, memory.ram, memory.sh, r, sizes, images, sz, Shrunk(s, sz));
      assert sizes[r := sz].Keys == sizes.Keys;
      sizes := sizes[r := sz];
      images := images[r := Shrunk(s, sz)];
    }

    /** A page fault at a page that is not mapped: it gets a zeroed page, or memory has run out.  There is no panic. */
    method DoFault(r: nat, va: nat) returns (panic: bool, ok: bool)
      requires Sound() && r in sizes && va < sizes[r] && Pte(memory.ram, r, va / 4096) == 0
      modifies this, memory
      ensures !panic && Sound() && sizes == old(sizes) && old(r in images)
      ensures ok ==> images == old(images)[r := Added(old(images)[r], va / 4096, 1)]
      ensures !ok ==> images == old(images) && old(memory.freePages) <= 2
    {
      hide Inv;
      hide Roots;
      hide Managed;
      hide Pte;
      hide NoneHeld;
      hide IsRoot;
      hide PageUp;
      hide Images;
      hide PagesOk;
      hide Open;
      hide OthersSame;
      hide Shows;
      hide U;
      hide Grew;
      hide Extended;
      hide Added;
      RootsOf(memory.sh, sizes);
      SizeFits(memory.ram, sizes, r, sizes[r]);
      hide Fitted;
      PageBelow(va, sizes[r]);
      ghost var ram0, use0, pos0, head0, sh0, user0 :=
        memory.ram, memory.use, memory.pos, memory.freelist, memory.sh, memory.user;
      ImageOf(ram0, sizes, images, r);
      ghost var s := images[r];
      var ret;
      panic, ret := memory.LazyAlloc(r, va);
      ok := ret == 0;
      if ok {
        GrewFits(ram0, use0, sh0, memory.ram, memory.use, memory.sh, r, va / 4096, 1, Zeros(PTE_R + PTE_W + PTE_U),
                 sizes, sizes[r]);
        GrewShows(ram0, use0, pos0, head0, sh0, user0, memory.ram, memory.use, memory.sh, r, va / 4096, 1, s);
        AddedImage(s, va / 4096);
        AddedOpen(s, va / 4096, 1, s.sz);
        ImagesStep(ram0, sh0, memory.ram, memory.sh, r, sizes, images, sizes[r], Added(s, va / 4096, 1));
        assert sizes[r := sizes[r]] == sizes;
        images := images[r := Added(s, va / 4096, 1)];
      } else {
        ExtendedFits(ram0, use0, sh0, memory.ram, memory.use, memory.sh, sizes);
        ExtendedShows(ram0, use0, pos0, head0, sh0, user0, memory.ram, memory.use, memory.sh, r, s);
        ImagesStep(ram0, sh0, memory.ram, memory.sh, r, sizes, images, sizes[r], s);
        assert sizes[r := sizes[r]] == sizes && images[r := s] == images;
      }
    }

    /** uvmfree() */
    method DoDestroy(r: nat)
      requires Sound() && r in sizes
      modifies this, memory
      ensures Sound() && images == old(images) - {r} && sizes == old(sizes) - {r}
    {
      hide Inv;
      hide Roots;
      hide Managed;
      hide Pte;
      hide NoneHeld;
      hide IsRoot;
      hide PageUp;
      hide Images;
      hide PagesOk;
      hide Open;
      hide OthersSame;
      hide Shows;
      hide SpaceFreed;
      RootsOf(memory.sh, sizes);
      SizeFits(memory.ram, sizes, r, sizes[r]);
      hide Fitted;
      ghost var ram0, use0, pos0, head0, sh0, user0 :=
        memory.ram, memory.use, memory.pos, memory.freelist, memory.sh, memory.user;
      memory.Uvmfree(r, sizes[r]);
      FreedFits(ram0, use0, sh0, user0, memory.ram, memory.use, memory.sh, r, sizes);
      ImagesFreed(ram0, use0, pos0, head0, sh0, user0, memory.ram, memory.use, memory.sh, r, sizes, images);
      sizes := sizes - {r};
      images := images - {r};
    }

    /** uvmcopy() into a new address space, which is destroyed if memory runs out. */
    method CopySpace(r: nat, child: nat) returns (panic: bool, ok: bool)
      requires Sound() && r in sizes && child in sizes && r != child && sizes[child] == 0
      requires ClearFrom(memory.ram, child, 0)
      modifies this, memory
      ensures old(r in images && images[r].sz == sizes[r])
      ensures !panic ==> Sound()
      ensures !panic ==> images == if ok then old(images)[child := old(images)[r]] else old(images) - {child}
      ensures panic ==> Untouched(old(images)[r])
      ensures old(memory.freePages) >= 3 * PageUp(old(sizes)[r]) ==>
        (panic <==> Untouched(old(images)[r])) && (panic || ok)
    {
      hide Inv;
      hide Roots;
      hide Managed;
      hide Pte;
      hide NoneHeld;
      hide IsRoot;
      hide PageUp;
      hide Images;
      hide PagesOk;
      hide Open;
      hide OthersSame;
      hide Shows;
      hide Grew;
      hide Extended;
      hide Untouched;
      hide HasHole;
      RootsOf(memory.sh, sizes);
      SizeFits(memory.ram, sizes, r, sizes[r]);
      hide Fitted;
      ghost var ram0, use0, pos0, head0, sh0, user0 :=
        memory.ram, memory.use, memory.pos, memory.freelist, memory.sh, memory.user;
      ImageOf(ram0, sizes, images, r);
      ImageOf(ram0, sizes, images, child);
      ghost var s := images[r];
      HoleShows(ram0, r, s);
      var ret;
      panic, ret := memory.Uvmcopy(r, child, sizes[r]);
      ok := ret == 0;
      if panic {
        return;
      }
      if ok {
        GrewFits(ram0, use0, sh0, memory.ram, memory.use, memory.sh, child, 0, PageUp(sizes[r]), CopyOf(r, ram0),
                 sizes, sizes[r]);
        CopyShows(ram0, use0, pos0, head0, sh0, user0, memory.ram, memory.use, memory.sh, r, child, s);
        ImagesStep(ram0, sh0, memory.ram, memory.sh, child, sizes, images, sizes[r], s);
        assert sizes[child := sizes[r]].Keys == sizes.Keys;
        sizes := sizes[child := sizes[r]];
        images := images[child := s];
      } else {
        ExtendedFits(ram0, use0, sh0, memory.ram, memory.use, memory.sh, sizes);
        ExtendedShows(ram0, use0, pos0, head0, sh0, user0, memory.ram, memory.use, memory.sh, r, s);
        ImagesStep(ram0, sh0, memory.ram, memory.sh, r, sizes, images, sizes[r], s);
        assert sizes[r := sizes[r]] == sizes && images[r := s] == images;
        DoDestroy(child);
      }
    }

    /** The memory of fork(): a copy of the address space.  The kernel panics if a page of the parent was never
        touched and memory does not run out before. */
    method DoFork(r: nat) returns (panic: bool, child: nat)
      requires Sound() && r in sizes
      modifies this, memory
      ensures old(r in images && images[r].sz == sizes[r])
      ensures !panic ==> Sound()
      ensures !panic && child == 0 ==> images == old(images)
      ensures !panic && child != 0 ==> child !in old(images) && images == old(images)[child := old(images)[r]]
      ensures panic ==> Untouched(old(images)[r])
      ensures old(memory.freePages) > 3 * PageUp(old(sizes)[r]) ==>
        (panic <==> Untouched(old(images)[r])) && (panic || child != 0)
    {
      hide Inv;
      hide Roots;
      hide Managed;
      hide Pte;
      hide NoneHeld;
      hide Fitted;
      hide PageUp;
      hide Images;
      hide Untouched;
      ImageOf(memory.ram, sizes, images, r);
      hide ImageOk;
      panic := false;
      child := DoCreate();
      if child == 0 {
        return;
      }
      var ok;
      panic, ok := CopySpace(r, child);
      if !panic && !ok {
        assert images == old(images);
        child := 0;
      }
    }

    /** The access itself, to a page that is mapped. */
    method Perform(r: nat, a: nat, op: Access) returns (word: nat)
      requires Sound() && r in sizes && a < TRAPFRAME_VPN * 4096 && Pte(memory.ram, r, a / 4096) != 0
      modifies this, memory`ram
      ensures Sound() && sizes == old(sizes) && old(r in images) && a / 4096 in old(images)[r].mem
      ensures var out := Touched(old(images)[r], a, op);
        out.Fine? && word == out.word && images == old(images)[r := out.space]
    {
      hide Inv;
      hide Roots;
      hide Managed;
      hide Pte;
      hide Ppn;
      hide NoneHeld;
      hide IsRoot;
      hide PageUp;
      hide Images;
      hide Open;
      hide OthersSame;
      RootsOf(memory.sh, sizes);
      ghost var ram0, v := memory.ram, a / 4096;
      ImageOf(ram0, sizes, images, r);
      ghost var s := images[r];
      assert ShowsPage(ram0, r, s, v);
      hide Shows;
      var c, k := Ppn(Pte(memory.ram, r, a / 4096)), a % 4096 / 8;
      assert k < 512 && |s.mem[v]| == 512;
      var page := memory.ram[c];
      word := page[k];
      match op
      case Load =>
        assert images[r := s] == images;
      case Store(w) =>
        var page': Page := page[k := w];
        ghost var s' := s.(mem := s.mem[v := page']);
        StoreShows(ram0, memory.use, memory.pos, memory.freelist, memory.sh, memory.user, r, s, v, page');
        StoredOpen(s, v, page');
        memory.ram := memory.ram[c := page'];
        StoredFits(ram0, memory.use, memory.pos, memory.freelist, memory.sh, memory.user, r, v, page', sizes);
        ImagesStep(ram0, memory.sh, memory.ram, memory.sh, r, sizes, images, sizes[r], s');
        assert sizes[r := sizes[r]] == sizes;
        images := images[r := s'];
    }

    /** A load or store by the program, with the fault it takes: it ends as on the lazy image, short of memory
        running out. */
    method DoTouch(r: nat, a: nat, op: Access) returns (ok: bool, word: nat)
      requires Sound() && r in sizes && a < TRAPFRAME_VPN * 4096
      modifies this, memory
      ensures Sound() && old(r in images && PagesOk(images[r]))
      ensures ok ==> var out := LazyAccess(old(images)[r], a, op);
        out.Fine? && word == out.word && images == old(images)[r := out.space]
      ensures ok ==> Accessed(old(images)[r], images[r], a, op, word)
      ensures !ok ==> images == old(images) && (old(memory.freePages) <= 2 || LazyAccess(old(images)[r], a, op).Killed?)
    {
      hide Inv;
      hide Roots;
      hide Managed;
      hide Pte;
      hide NoneHeld;
      hide Fitted;
      hide PageUp;
      hide Images;
      hide Added;
      hide Touched;
      hide Shows;
      hide Allows;
      ok, word := false, 0;
      ImageOf(memory.ram, sizes, images, r);
      ghost var s := images[r];
      OpenAllows(memory.ram, r, s, a / 4096, op.Store?);
      hide ImageOk;
      var w := Pte(memory.ram, r, a / 4096);
      if w == 0 {
        if a >= sizes[r] {
          return;
        }
        var panic;
        panic, ok := DoFault(r, a);
        if !ok {
          return;
        }
        ImageOf(memory.ram, sizes, images, r);
        AddedAllows(s, a / 4096, op.Store?);
        OpenAllows(memory.ram, r, images[r], a / 4096, op.Store?);
      }
      word := Perform(r, a, op);
      ok := true;
      LazyWords(s, a, op);
    }

    /** A request that makes or destroys an address space. */
    method DoSpace(q: Request) returns (res: Result)
      requires Sound() && Sensible(images, q) && (q.Create? || q.Fork? || q.Destroy?)
      modifies this, memory
      ensures old(TableOk(images))
      ensures !res.Panic? ==> Sound()
      ensures Answer(old(images), images, old(memory.freePages), q, res)
    {
      hide Inv;
      hide Roots;
      hide Managed;
      hide Pte;
      hide NoneHeld;
      hide Fitted;
      hide PageUp;
      hide Images;
      hide Untouched;
      hide LazyAccess;
      hide Shrunk;
      hide EagerSbrk;
      hide LazySbrk;
      hide TableOk;
      hide PagesOk;
      TableFacts(memory.ram, sizes, images);
      match q {
        case Create =>
          var r := DoCreate();
          res := if r == 0 then Refused else Ok(r);
        case Fork(r) =>
          var panic, child := DoFork(r);
          res := if panic then Panic else if child == 0 then Refused else Ok(child);
        case Destroy(r) =>
          DoDestroy(r);
          res := Ok(0);
      }
    }

    /** A request that changes one. */
    method DoChange(q: Request) returns (res: Result)
      requires Sound() && Sensible(images, q) && (q.Grow? || q.Extend? || q.Shrink? || q.Touch?)
      modifies this, memory
      ensures old(TableOk(images))
      ensures !res.Panic? ==> Sound()
      ensures Answer(old(images), images, old(memory.freePages), q, res)
    {
      hide Inv;
      hide Roots;
      hide Managed;
      hide Pte;
      hide NoneHeld;
      hide Fitted;
      hide PageUp;
      hide Images;
      hide Untouched;
      hide LazyAccess;
      hide Shrunk;
      hide EagerSbrk;
      hide LazySbrk;
      hide TableOk;
      hide PagesOk;
      TableFacts(memory.ram, sizes, images);
      match q {
        case Grow(r, n) =>
          var ok := DoGrow(r, n);
          res := if ok then Ok(0) else Refused;
        case Extend(r, n) =>
          DoExtend(r, n);
          res := Ok(0);
        case Shrink(r, sz) =>
          DoShrink(r, sz);
          res := Ok(0);
        case Touch(r, a, op) =>
          var ok, word := DoTouch(r, a, op);
          res := if ok then Ok(word) else Refused;
      }
    }

    /** One request. */
    method Do(q: Request) returns (res: Result)
      requires Sound() && Sensible(images, q)
      modifies this, memory
      ensures old(TableOk(images))
      ensures !res.Panic? ==> Sound()
      ensures Answer(old(images), images, old(memory.freePages), q, res)
    {
      hide Inv;
      hide Answer;
      hide Images;
      hide Fitted;
      hide TableOk;
      if q.Create? || q.Fork? || q.Destroy? {
        res := DoSpace(q);
      } else {
        res := DoChange(q);
      }
    }

    /** Any sequence of requests, those that make no sense passed over, as far as the kernel does not panic.  Each
        has its effect on the table of images, and each load finds the word last stored.  Every page stays free, or a
        table or user page of one address space, and once all address spaces are destroyed every page is free again. */
    method Run(requests: seq<Request>) returns (results: seq<Result>, ghost trace: seq<map<nat, Space>>,
                                                ghost free: seq<nat>)
      requires Sound()
      modifies this, memory
      ensures |results| <= |requests| && |trace| == |free| == |results| + 1
      ensures trace[0] == old(images) && free[0] == old(memory.freePages)
      ensures forall k | 0 <= k < |results| :: Effect(trace[k], trace[k + 1], free[k], requests[k], results[k])
      ensures forall k | 0 <= k < |results| ::
        Finds(old(images), requests[..k], results[..k], requests[k], results[k])
      ensures || (exists k :: 0 <= k < |results| && results[k] == Panic)
              || (|results| == |requests| && Sound() && Tracks(old(images), images, requests, results))
      ensures |results| == |requests| && Sound() ==> trace[|results|] == images && free[|results|] == memory.freePages
      ensures Sound() ==> memory.freePages == |set p | p in memory.use && memory.use[p] == Free|
      ensures Sound() && sizes == map[] ==> memory.freePages == memory.totalPages
    {
      hide Inv;
      hide Roots;
      hide Managed;
      hide NoneHeld;
      hide Fitted;
      hide Images;
      hide Effect;
      hide Finds;
      hide Tracks;
      results, trace, free := [], [images], [memory.freePages];
      StartTracks(images);
      assert requests[..0] == [];
      var k := 0;
      while k < |requests|
        invariant 0 <= k <= |requests| && Sound() && |results| == k && |trace| == |free| == k + 1
        invariant trace[0] == old(images) && free[0] == old(memory.freePages)
        invariant trace[k] == images && free[k] == memory.freePages
        invariant forall j | 0 <= j < k :: Effect(trace[j], trace[j + 1], free[j], requests[j], results[j])
        invariant forall j | 0 <= j < k :: Finds(old(images), requests[..j], results[..j], requests[j], results[j])
        invariant Tracks(old(images), images, requests[..k], results)
      {
        ghost var t, free0 := images, memory.freePages;
        var res := Once(requests[k]);
        ghost var before := results;
        results, trace, free := results + [res], trace + [images], free + [memory.freePages];
        assert results[..k] == before && requests[..k + 1][..k] == requests[..k];
        TouchFinds(old(images), t, images, free0, requests[..k], before, requests[k], res);
        assert forall j | 0 <= j < k :: results[..j] == before[..j];
        if res.Panic? {
          assert results[k] == Panic;
          EndOfRun();
          return;
        }
        TracksStep(old(images), t, images, free0, requests[..k + 1], results, k);
        k := k + 1;
      }
      assert requests[..k] == requests;
      EndOfRun();
    }

    /** A request, or nothing if it makes no sense. */
    method Once(q: Request) returns (res: Result)
      requires Sound()
      modifies this, memory
      ensures !res.Panic? ==> Sound()
      ensures Effect(old(images), images, old(memory.freePages), q, res)
    {
      hide Inv;
      hide Answer;
      hide Images;
      hide Fitted;
      hide TableOk;
      TableFacts(memory.ram, sizes, images);
      SensibleSizes(sizes, images, q);
      hide Sensible;
      res := Refused;
      if SensibleHere(sizes, q) {
        res := Do(q);
      }
    }

    lemma EndOfRun()
      ensures Sound() ==> memory.freePages == |set p | p in memory.use && memory.use[p] == Free|
      ensures Sound() && sizes == map[] ==> memory.freePages == memory.totalPages
    {
      hide Inv;
      hide Roots;
      hide Managed;
      hide NoneHeld;
      hide Fitted;
      hide Images;
      if Sound() {
        FreeSet(memory.ram, memory.use, memory.pos, memory.freelist, memory.sh, memory.user);
        if sizes == map[] {
          assert memory.roots == {};
          AllBack(memory.ram, memory.use, memory.pos, memory.freelist, memory.sh, memory.user);
        }
      }
    }
  }

  /** What one request of a run does. */
  ghost predicate Effect(t: map<nat, Space>, t1: map<nat, Space>, free: nat, q: Request, res: Result)
  {
    && TableOk(t)
    && if Sensible(t, q) then Answer(t, t1, free, q, res) else t1 == t && res == Refused
  }

  // ---- what the words of memory are, from the requests and their results alone ----

  /** The size of address space r. */
  function SizeOf(start: map<nat, Space>, requests: seq<Request>, results: seq<Result>, r: nat): (m: nat)
    requires |requests| == |results|
    decreases |requests|
  {
    var n := |requests| - 1;
    if n < 0 then (if r in start then start[r].sz else 0)
    else
      var before := SizeOf(start, requests[..n], results[..n], r);
      if !results[n].Ok? then before
      else
        match requests[n]
        case Create => if results[n].c == r then 0 else before
        case Fork(q) => if results[n].c == r then SizeOf(start, requests[..n], results[..n], q) else before
        case Grow(q, k) => if q == r then before + k else before
        case Extend(q, k) => if q == r then before + k else before
        case Shrink(q, sz) => if q == r then sz else before
        case _ => before
  }

  /** Word w of address space r: the last one stored there, by r or before the fork that made r, since its page was
      last added or dropped. */
  function WordOf(start: map<nat, Space>, requests: seq<Request>, results: seq<Result>, r: nat, w: nat): (x: nat)
    requires |requests| == |results|
    decreases |requests|
  {
    var n := |requests| - 1;
    if n < 0 then (if r in start then WordAt(start[r], w) else 0)
    else
      var before := WordOf(start, requests[..n], results[..n], r, w);
      var m := SizeOf(start, requests[..n], results[..n], r);
      if !results[n].Ok? then before
      else
        match requests[n]
        case Create => if results[n].c == r then 0 else before
        case Fork(q) => if results[n].c == r then WordOf(start, requests[..n], results[..n], q, w) else before
        case Grow(q, k) => if q == r && Moved(m, m + k, w) then 0 else before
        case Extend(q, k) => if q == r && Moved(m, m + k, w) then 0 else before
        case Shrink(q, sz) => if q == r && Moved(m, sz, w) then 0 else before
        case Touch(q, a, Store(x)) => if q == r && a / 8 == w then x else before
        case _ => before
  }

  /** The images hold those words, and those sizes. */
  ghost predicate Tracks(start: map<nat, Space>, t: map<nat, Space>, requests: seq<Request>, results: seq<Result>)
    requires |requests| == |results|
  {
    && (forall r | r in t :: t[r].sz == SizeOf(start, requests, results, r))
    && (forall r, w: nat | r in t :: WordAt(t[r], w) == WordOf(start, requests, results, r, w))
  }

  lemma StartTracks(start: map<nat, Space>)
    ensures Tracks(start, start, [], [])
  {
  }

  /** What one answered request does to the size and the words of each address space. */
  ghost predicate Moves(t: map<nat, Space>, t1: map<nat, Space>, q: Request, c: nat, r: nat, w: nat)
    requires r in t1
  {
    match q
    case Create => if r == c then t1[r].sz == 0 && WordAt(t1[r], w) == 0 else r in t && t1[r] == t[r]
    case Fork(p) => if r == c then p in t && t1[r] == t[p] else r in t && t1[r] == t[r]
    case Grow(p, n) =>
      && r in t
      && if r == p then t1[r].sz == t[r].sz + n && WordAt(t1[r], w) == Kept(t[r], t[r].sz + n, w) else t1[r] == t[r]
    case Extend(p, n) =>
      && r in t
      && if r == p then t1[r].sz == t[r].sz + n && WordAt(t1[r], w) == Kept(t[r], t[r].sz + n, w) else t1[r] == t[r]
    case Shrink(p, sz) =>
      && r in t
      && if r == p then t1[r].sz == sz && WordAt(t1[r], w) == Kept(t[r], sz, w) else t1[r] == t[r]
    case Touch(p, a, op) =>
      && r in t && (r == p ==> Accessed(t[r], t1[r], a, op, c)) && (r != p ==> t1[r] == t[r])
    case Destroy(p) => r in t && t1[r] == t[r]
  }

  ghost function Kept(s: Space, sz: nat, w: nat): nat
  {
    if Moved(s.sz, sz, w) then 0 else WordAt(s, w)
  }

  lemma ExtendedWords(s: Space, n: nat, w: nat)
    requires PagesOk(s)
    ensures WordAt(s.(sz := s.sz + n), w) == Kept(s, s.sz + n, w)
  {
  }

  lemma AnswerMoves(t: map<nat, Space>, t1: map<nat, Space>, free: nat, q: Request, res: Result, r: nat, w: nat)
    requires TableOk(t) && Sensible(t, q) && Answer(t, t1, free, q, res) && res.Ok? && r in t1
    ensures Moves(t, t1, q, res.c, r, w)
  {
    hide Untouched;
    hide LazyAccess;
    hide Shrunk;
    hide EagerSbrk;
    hide WordAt;
    hide Moved;
    match q {
      case Create =>
        NoWords(w);
      case Grow(p, n) =>
        SbrkWords(t[p], n, w);
      case Extend(p, n) =>
        ExtendedWords(t[p], n, w);
      case Shrink(p, sz) =>
        ShrunkWords(t[p], sz, w);
        ShrunkSize(t[p], sz);
        MovedDown(t[p].sz, sz, w, t[p]);
      case Touch(p, a, op) =>
        LazyWords(t[p], a, op);
      case Fork(p) =>
      case Destroy(p) =>
    }
  }

  lemma OkMoves(t: map<nat, Space>, t1: map<nat, Space>, free: nat, q: Request, res: Result, r: nat, w: nat)
    requires Effect(t, t1, free, q, res) && res.Ok? && r in t1
    ensures Moves(t, t1, q, res.c, r, w)
  {
    hide TableOk;
    hide Sensible;
    hide Answer;
    AnswerMoves(t, t1, free, q, res, r, w);
  }

  lemma RefusedSame(t: map<nat, Space>, t1: map<nat, Space>, free: nat, q: Request, res: Result)
    requires Effect(t, t1, free, q, res) && res.Refused?
    ensures t1 == t
  {
  }

  lemma TracksSize(start: map<nat, Space>, t: map<nat, Space>, t1: map<nat, Space>, requests: seq<Request>,
                   results: seq<Result>, n: nat, r: nat, w: nat)
    requires |requests| == |results| == n + 1 && Tracks(start, t, requests[..n], results[..n])
    requires results[n].Ok? && r in t1 && Moves(t, t1, requests[n], results[n].c, r, w)
    ensures t1[r].sz == SizeOf(start, requests, results, r)
  {
    hide WordAt;
    hide WordOf;
    hide Moved;
  }

  lemma TracksWord(start: map<nat, Space>, t: map<nat, Space>, t1: map<nat, Space>, requests: seq<Request>,
                   results: seq<Result>, n: nat, r: nat, w: nat)
    requires |requests| == |results| == n + 1 && Tracks(start, t, requests[..n], results[..n])
    requires results[n].Ok? && r in t1 && Moves(t, t1, requests[n], results[n].c, r, w)
    ensures WordAt(t1[r], w) == WordOf(start, requests, results, r, w)
  {
    hide WordAt;
    hide SizeOf;
    hide Moved;
  }

  /** One more request, met or refused. */
  lemma TracksStep(start: map<nat, Space>, t: map<nat, Space>, t1: map<nat, Space>, free: nat,
                   requests: seq<Request>, results: seq<Result>, n: nat)
    requires |requests| == |results| == n + 1 && Tracks(start, t, requests[..n], results[..n])
    requires Effect(t, t1, free, requests[n], results[n]) && !results[n].Panic?
    ensures Tracks(start, t1, requests, results)
  {
    hide Effect;
    if results[n].Ok? {
      forall r | r in t1
        ensures t1[r].sz == SizeOf(start, requests, results, r)
      {
        OkMoves(t, t1, free, requests[n], results[n], r, 0);
        TracksSize(start, t, t1, requests, results, n, r, 0);
      }
      forall r, w: nat | r in t1
        ensures WordAt(t1[r], w) == WordOf(start, requests, results, r, w)
      {
        OkMoves(t, t1, free, requests[n], results[n], r, w);
        TracksWord(start, t, t1, requests, results, n, r, w);
      }
    } else {
      RefusedSame(t, t1, free, requests[n], results[n]);
    }
  }

  /** An access that is met finds the word last stored. */
  ghost predicate Finds(start: map<nat, Space>, requests: seq<Request>, results: seq<Result>, q: Request, res: Result)
    requires |requests| == |results|
  {
    q.Touch? && res.Ok? ==> res.c == WordOf(start, requests, results, q.r, q.a / 8)
  }

  lemma TouchFinds(start: map<nat, Space>, t: map<nat, Space>, t1: map<nat, Space>, free: nat,
                   requests: seq<Request>, results: seq<Result>, q: Request, res: Result)
    requires |requests| == |results| && Tracks(start, t, requests, results) && Effect(t, t1, free, q, res)
    ensures Finds(start, requests, results, q, res)
  {
    if q.Touch? && res.Ok? {
      hide LazyAccess;
      hide WordAt;
      hide WordOf;
      hide PagesOk;
      LazyWords(t[q.r], q.a, q.op);
    }
  }

  lemma NoWords(w: nat)
    ensures WordAt(Space(0, map[], map[]), w) == 0
  {
  }

  lemma MovedDown(m: nat, n: nat, w: nat, s: Space)
    requires n <= m == s.sz && PagesOk(s)
    ensures w / 512 >= PageUp(n) ==> Moved(m, n, w)
    ensures w / 512 < PageUp(n) ==> !Moved(m, n, w)
  {
  }

  /** The same test on the sizes that the kernel knows. */
  predicate SensibleHere(sizes: map<nat, nat>, q: Request)
  {
    match q
    case Create => true
    case Grow(r, n) => r in sizes && 0 < n && sizes[r] + n <= TRAPFRAME_VPN * 4096
    case Extend(r, n) => r in sizes && 0 < n && sizes[r] + n <= TRAPFRAME_VPN * 4096
    case Shrink(r, sz) => r in sizes && sz <= sizes[r]
    case Touch(r, a, _) => r in sizes && a < TRAPFRAME_VPN * 4096
    case Fork(r) => r in sizes
    case Destroy(r) => r in sizes
  }

  lemma SensibleSizes(sizes: map<nat, nat>, images: map<nat, Space>, q: Request)
    requires images.Keys == sizes.Keys && forall r {:trigger images[r]} | r in images :: images[r].sz == sizes[r]
    ensures SensibleHere(sizes, q) <==> Sensible(images, q)
  {
    assert forall r: nat :: r in images <==> r in sizes;
  }

  /** A run in which the kernel panics: a process that has grown lazily and touched nothing forks. */
  method ForkPanics(end: nat, contents: map<nat, Page>, n: nat) returns (r: nat, panic: bool)
    requires KERNBASE <= end <= PHYSTOP && Managed(end, contents.Keys)
    requires forall p | p in contents :: |contents[p]| == 512
    requires 0 < n <= TRAPFRAME_VPN * 4096 && |contents.Keys| >= 2 + 3 * PageUp(n)
    ensures r != 0 && panic
  {
    hide Inv;
    hide Managed;
    hide Images;
    hide Fitted;
    hide NoneHeld;
    hide Roots;
    var spaces := new Spaces(end, contents);
    r := spaces.DoCreate();
    spaces.DoExtend(r, n);
    TableFacts(spaces.memory.ram, spaces.sizes, spaces.images);
    assert 0 < PageUp(n) && 0 !in spaces.images[r].mem;
    assert Untouched(spaces.images[r]);
    var child;
    panic, child := spaces.DoFork(r);
  }
}
