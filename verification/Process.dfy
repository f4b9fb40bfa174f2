/**
 * The memory of one process: growproc, sys_sbrk and the page-fault branch of
 * usertrap, carried out on the page tables and proved against the image.
 */
module Process {
  import opened Pages
  import opened PageTable
  import opened VmState
  import opened Vm
  import opened Lazy
  import opened Words

  /** Page v of address space r is as in s. */
  ghost predicate ShowsPage(ram: map<nat, Page>, r: nat, s: Space, v: nat)
  {
    var w := Pte(ram, r, v);
    && (w != 0 <==> v in s.mem)
    && (w != 0 ==> v in s.flags && s.flags[v] == w % 1024 && Ppn(w) in ram && ram[Ppn(w)] == s.mem[v])
  }

  /** The user part of address space r is the image s. */
  ghost predicate Shows(ram: map<nat, Page>, r: nat, s: Space)
  {
    forall v: nat {:trigger ShowsPage(ram, r, s, v)} | v < TRAPFRAME_VPN :: ShowsPage(ram, r, s, v)
  }

  /** No other address space is affected, neither its translations nor its pages. */
  ghost predicate OthersSame(ram: map<nat, Page>, sh: Shape, ram': map<nat, Page>, sh': Shape, r: nat)
  {
    && (forall q | IsRoot(sh, q) :: IsRoot(sh', q))
    && (forall q: nat, v: nat {:trigger SamePage(ram, ram', q, v)} | IsRoot(sh, q) && q != r && v < TRAPFRAME_VPN ::
          SamePage(ram, ram', q, v))
  }

  ghost predicate SamePage(ram: map<nat, Page>, ram': map<nat, Page>, q: nat, v: nat)
  {
    && Pte(ram', q, v) == Pte(ram, q, v)
    && (Pte(ram, q, v) != 0 ==>
          Ppn(Pte(ram, q, v)) in ram && Ppn(Pte(ram, q,
                                                v)) in ram' && ram'[Ppn(Pte(ram, q, v))] == ram[Ppn(Pte(ram, q, v))])
  }

  lemma GrewShows(ram: map<nat, Page>, use: map<nat, Use>, pos: map<nat, nat>, head: nat, sh: Shape,
                  user: map<nat, Place>, ram': map<nat, Page>, use': map<nat, Use>, sh': Shape,
                  r: nat, v: nat, n: nat, s: Space)
    requires Inv(ram, use, pos, head, sh, user) && IsRoot(sh, r) && v + n <= TRAPFRAME_VPN
    requires Grew(ram, use, sh, ram', use', sh', r, v, n, Zeros(22))
    requires Shows(ram, r, s)
    ensures Shows(ram', r, Added(s, v, n))
    ensures OthersSame(ram, sh, ram', sh', r)
  {
    hide Inv;
    hide Pte;
    hide Behind;
    hide Ppn;
    hide Filled;
    forall u: nat {:trigger ShowsPage(ram', r, Added(s, v, n), u)} | u < TRAPFRAME_VPN
      ensures ShowsPage(ram', r, Added(s, v, n), u)
    {
      GrewPage(ram, use, pos, head, sh, user, ram', use', sh', r, v, n, s, u);
    }
    forall q: nat, u: nat {:trigger SamePage(ram, ram', q, u)} | IsRoot(sh, q) && q != r && u < TRAPFRAME_VPN
      ensures SamePage(ram, ram', q, u)
    {
      UserKept(ram, use, pos, head, sh, user, ram', q, u);
    }
  }

  lemma UserKept(ram: map<nat, Page>, use: map<nat, Use>, pos: map<nat, nat>, head: nat, sh: Shape,
                 user: map<nat, Place>, ram': map<nat, Page>, q: nat, u: nat)
    requires Inv(ram, use, pos, head, sh, user) && IsRoot(sh, q) && u < TRAPFRAME_VPN
    requires SameData(ram, use, ram') && Pte(ram', q, u) == Pte(ram, q, u)
    ensures SamePage(ram, ram', q, u)
  {
    hide Inv;
    hide Pte;
    hide Ppn;
    if Pte(ram, q, u) != 0 {
      OnlyThere(ram, use, pos, head, sh, user, q, u);
    }
  }

  lemma GrewPage(ram: map<nat, Page>, use: map<nat, Use>, pos: map<nat, nat>, head: nat, sh: Shape,
                 user: map<nat, Place>, ram': map<nat, Page>, use': map<nat, Use>, sh': Shape,
                 r: nat, v: nat, n: nat, s: Space, u: nat)
    requires Inv(ram, use, pos, head, sh, user) && IsRoot(sh, r) && u < TRAPFRAME_VPN
    requires Grew(ram, use, sh, ram', use', sh', r, v, n, Zeros(22))
    requires Shows(ram, r, s)
    ensures ShowsPage(ram', r, Added(s, v, n), u)
  {
    hide Inv;
    hide Pte;
    hide Behind;
    hide Ppn;
    hide Filled;
    assert ShowsPage(ram, r, s, u);
    assert Between(v, n, u) <==> v <= u < v + n;
    if v <= u < v + n {
      assert NewPage(use, ram', use', r, u, Zeros(22));
      EntryFields(Ppn(Pte(ram', r, u)), 22);
      Pointer(0);
    } else {
      GrewOutside(ram, use, sh, ram', use', sh', r, v, n, Zeros(22), u);
      UserKept(ram, use, pos, head, sh, user, ram', r, u);
    }
  }

  lemma ExtendedShows(ram: map<nat, Page>, use: map<nat, Use>, pos: map<nat, nat>, head: nat, sh: Shape,
                      user: map<nat, Place>, ram': map<nat, Page>, use': map<nat, Use>, sh': Shape, r: nat, s: Space)
    requires Inv(ram, use, pos, head, sh, user) && IsRoot(sh, r)
    requires Extended(ram, use, sh, ram', use', sh') && Shows(ram, r, s)
    ensures Shows(ram', r, s) && OthersSame(ram, sh, ram', sh', r)
  {
    hide Inv;
    hide Pte;
    hide Ppn;
    forall u: nat {:trigger ShowsPage(ram', r, s, u)} | u < TRAPFRAME_VPN
      ensures ShowsPage(ram', r, s, u)
    {
      assert ShowsPage(ram, r, s, u);
      assert Pte(ram', r, u) == Pte(ram, r, u);
      UserKept(ram, use, pos, head, sh, user, ram', r, u);
    }
    forall q: nat, u: nat {:trigger SamePage(ram, ram', q, u)} | IsRoot(sh, q) && q != r && u < TRAPFRAME_VPN
      ensures SamePage(ram, ram', q, u)
    {
      UserKept(ram, use, pos, head, sh, user, ram', q, u);
    }
  }

  lemma UnmappedShows(ram: map<nat, Page>, use: map<nat, Use>, pos: map<nat, nat>, head: nat, sh: Shape,
                      user: map<nat, Place>, ram': map<nat, Page>, use': map<nat, Use>, user': map<nat, Place>,
                      r: nat, s: Space, newsz: nat)
    requires Inv(ram, use, pos, head, sh, user) && IsRoot(sh, r)
    requires PagesOk(s) && PageUp(s.sz) <= TRAPFRAME_VPN && newsz <= s.sz
    requires Unmapped(ram, use, sh, user, ram', use', user', r, PageUp(newsz), PageUp(s.sz) - PageUp(newsz), Free)
    requires Shows(ram, r, s)
    ensures Shows(ram', r, Shrunk(s, newsz)) && OthersSame(ram, sh, ram', sh, r)
  {
    hide Inv;
    hide Pte;
    hide Ppn;
    hide InRange;
    var v, n := PageUp(newsz), PageUp(s.sz) - PageUp(newsz);
    forall u: nat {:trigger ShowsPage(ram', r, Shrunk(s, newsz), u)} | u < TRAPFRAME_VPN
      ensures ShowsPage(ram', r, Shrunk(s, newsz), u)
    {
      assert ShowsPage(ram, r, s, u);
      assert Pte(ram', r, u) == if v <= u < v + n then 0 else Pte(ram, r, u);
      if !(v <= u < v + n) {
        StillThere(ram, use, pos, head, sh, user, ram', use', user', r, v, n, r, u);
      }
    }
    forall q: nat, u: nat {:trigger SamePage(ram, ram', q, u)} | IsRoot(sh, q) && q != r && u < TRAPFRAME_VPN
      ensures SamePage(ram, ram', q, u)
    {
      StillThere(ram, use, pos, head, sh, user, ram', use', user', r, v, n, q, u);
    }
  }

  lemma StillThere(ram: map<nat, Page>, use: map<nat, Use>, pos: map<nat, nat>, head: nat, sh: Shape,
                   user: map<nat, Place>, ram': map<nat, Page>, use': map<nat, Use>, user': map<nat, Place>,
                   r: nat, v: nat, n: nat, q: nat, u: nat)
    requires Inv(ram, use, pos, head, sh, user) && IsRoot(sh, q) && u < TRAPFRAME_VPN
    requires Unmapped(ram, use, sh, user, ram', use', user', r, v, n, Free)
    requires q != r || !(v <= u < v + n)
    ensures SamePage(ram, ram', q, u)
  {
    hide Inv;
    hide Pte;
    hide Ppn;
    if Pte(ram, q, u) != 0 {
      OnlyThere(ram, use, pos, head, sh, user, q, u);
      assert InRange(sh, user, Ppn(Pte(ram, q, u)), q, u, 1);
      assert !InRange(sh, user, Ppn(Pte(ram, q, u)), r, v, n);
      hide InRange;
      InvKeys(ram, use, pos, head, sh, user);
    }
  }

  /** A store into a user page of r. */
  lemma StoreShows(ram: map<nat, Page>, use: map<nat, Use>, pos: map<nat, nat>, head: nat, sh: Shape,
                   user: map<nat, Place>, r: nat, s: Space, v: nat, page: Page)
    requires Inv(ram, use, pos, head, sh, user) && IsRoot(sh, r) && v < TRAPFRAME_VPN && Pte(ram, r, v) != 0
    requires Shows(ram, r, s) && |page| == 512
    ensures Ppn(Pte(ram, r, v)) in ram
    ensures var c := Ppn(Pte(ram, r, v));
      Inv(ram[c := page], use, pos, head, sh, user) && Shows(ram[c := page], r, s.(mem := s.mem[v := page]))
      && OthersSame(ram, sh, ram[c := page], sh, r) && ram[c := page].Keys == ram.Keys
  {
    hide Inv;
    hide Pte;
    hide Ppn;
    hide InRange;
    var c := Ppn(Pte(ram, r, v));
    OnlyThere(ram, use, pos, head, sh, user, r, v);
    InvKeys(ram, use, pos, head, sh, user);
    InvFill(ram, use, pos, head, sh, user, c, page);
    var ram' := ram[c := page];
    forall u: nat {:trigger ShowsPage(ram', r, s.(mem := s.mem[v := page]), u)} | u < TRAPFRAME_VPN
      ensures ShowsPage(ram', r, s.(mem := s.mem[v := page]), u)
    {
      assert ShowsPage(ram, r, s, u);
      assert Pte(ram', r, u) == Pte(ram, r, u);
      if Pte(ram, r, u) != 0 && u != v {
        DistinctPages(ram, use, pos, head, sh, user, r, v, r, u);
      }
    }
    forall q: nat, u: nat {:trigger SamePage(ram, ram', q, u)} | IsRoot(sh, q) && q != r && u < TRAPFRAME_VPN
      ensures SamePage(ram, ram', q, u)
    {
      assert Pte(ram', q, u) == Pte(ram, q, u);
      if Pte(ram, q, u) != 0 {
        DistinctPages(ram, use, pos, head, sh, user, r, v, q, u);
      }
    }
  }

  /** No page is mapped at two places. */
  lemma DistinctPages(ram: map<nat, Page>, use: map<nat, Use>, pos: map<nat, nat>, head: nat, sh: Shape,
                      user: map<nat, Place>, r: nat, v: nat, q: nat, u: nat)
    requires Inv(ram, use, pos, head, sh, user) && IsRoot(sh, r) && IsRoot(sh, q)
    requires v < TRAPFRAME_VPN && u < TRAPFRAME_VPN && Pte(ram, r, v) != 0 && Pte(ram, q, u) != 0
    requires r != q || v != u
    ensures Ppn(Pte(ram, r, v)) != Ppn(Pte(ram, q, u))
    ensures Ppn(Pte(ram, q, u)) in ram
  {
    hide Inv;
    hide Pte;
    hide Ppn;
    OnlyThere(ram, use, pos, head, sh, user, r, v);
    OnlyThere(ram, use, pos, head, sh, user, q, u);
    assert InRange(sh, user, Ppn(Pte(ram, r, v)), r, v, 1);
    assert InRange(sh, user, Ppn(Pte(ram, q, u)), q, u, 1);
    InvKeys(ram, use, pos, head, sh, user);
  }

  lemma NothingAbove(ram: map<nat, Page>, r: nat, s: Space)
    requires Shows(ram, r, s) && PagesOk(s)
    ensures forall u: nat {:trigger Pte(ram, r, u)} | PageUp(s.sz) <= u < TRAPFRAME_VPN :: Pte(ram, r, u) == 0
  {
    hide Pte;
    hide Ppn;
    forall u: nat {:trigger Pte(ram, r, u)} | PageUp(s.sz) <= u < TRAPFRAME_VPN
      ensures Pte(ram, r, u) == 0
    {
      assert ShowsPage(ram, r, s, u);
    }
  }

  /** What the user program observes. */
  datatype Reply = Word(word: nat) | Kill | Hang

  predicate Tells(reply: Reply, out: Outcome)
  {
    match out
    case Fine(word, _) => reply == Word(word)
    case Killed => reply == Kill
    case Stuck => reply == Hang
  }

  class Process {
    const memory: Memory
    const pagetable: nat
    var sz: nat
    ghost var image: Space

    ghost predicate Valid()
      reads this, memory
    {
      && memory.Valid()
      && IsRoot(memory.sh, pagetable)
      && sz <= TRAPFRAME_VPN * 4096
      && image.sz == sz
      && PagesOk(image)
      && Shows(memory.ram, pagetable, image)
    }

    constructor (memory: Memory, pagetable: nat)
      requires memory.Valid() && IsRoot(memory.sh, pagetable)
      requires forall u: nat {:trigger Pte(memory.ram, pagetable, u)} | u < TRAPFRAME_VPN ::
        Pte(memory.ram, pagetable, u) == 0
      ensures Valid() && this.memory == memory && this.pagetable == pagetable && image == Space(0, map[], map[])
    {
      this.memory, this.pagetable, this.sz := memory, pagetable, 0;
      this.image := Space(0, map[], map[]);
    }

    /** growproc: the result is that of the eager sbrk. */
    method Growproc(n: int) returns (ret: int)
      requires Valid() && -0x80000000 <= n < 0x80000000
      requires n > 0 ==> sz + n <= TRAPFRAME_VPN * 4096
      modifies `sz, `image, memory
      ensures Valid() && (ret == 0 || ret == -1)
      ensures ret == 0 ==> image == EagerSbrk(old(image), n)
      ensures ret == -1 ==>
        n > 0 && image == old(image) && old(memory.freePages) < 3 * (PageUp(old(sz) + n) - PageUp(old(sz)))
      ensures OthersSame(old(memory.ram), old(memory.sh), memory.ram, memory.sh, pagetable)
    {
      hide Inv;
      hide Pte;
      hide Managed;
      hide Shows;
      hide Grew;
      hide Extended;
      hide Unmapped;
      hide Added;
      hide Shrunk;
      hide OthersSame;
      ret := 0;
      ghost var ram0, use0, pos0, head0, sh0, user0 :=
        memory.ram, memory.use, memory.pos, memory.freelist, memory.sh, memory.user;
      assert Shows(ram0, pagetable, image);
      NothingAbove(ram0, pagetable, image);
      if n > 0 {
        var panic, m := memory.Uvmalloc(pagetable, sz, sz + n, PTE_W);
        if m == 0 {
          ExtendedShows(ram0, use0, pos0, head0, sh0, user0, memory.ram, memory.use, memory.sh, pagetable, image);
          ret := -1;
          return;
        }
        GrewShows(ram0, use0, pos0, head0, sh0, user0, memory.ram, memory.use, memory.sh, pagetable,
                  PageUp(sz), PageUp(sz + n) - PageUp(sz), image);
        GrownImage(image, n);
        ShowsSize(memory.ram, pagetable, Added(image, PageUp(sz), PageUp(sz + n) - PageUp(sz)), sz + n);
        sz := m;
      } else if n < 0 {
        var m := memory.Uvmdealloc(pagetable, sz, NewSize(sz, n));
        UnmappedShows(ram0, use0, pos0, head0, sh0, user0, memory.ram, memory.use, memory.user, pagetable, image, m);
        ShrunkImage(image, NewSize(sz, n), m);
        sz := m;
      } else {
        Unchanged(ram0, use0, pos0, head0, sh0, user0, pagetable, image);
      }
      image := EagerSbrk(image, n);
    }

    /** sys_sbrk as it is now. */
    method Sbrk(n: int) returns (addr: int)
      requires Valid() && -0x80000000 <= n < 0x80000000
      requires n > 0 ==> sz + n <= TRAPFRAME_VPN * 4096
      modifies `sz, `image, memory
      ensures Valid() && addr == old(sz)
      ensures image == LazySbrk(old(image), n)
      ensures OthersSame(old(memory.ram), old(memory.sh), memory.ram, memory.sh, pagetable)
    {
      hide Inv;
      hide Pte;
      hide Managed;
      hide Shows;
      hide OthersSame;
      addr := sz;
      ghost var ram0 := memory.ram;
      assert Shows(ram0, pagetable, image);
      Unchanged(ram0, memory.use, memory.pos, memory.freelist, memory.sh, memory.user, pagetable, image);
      if n > 0 {
        GrownImage(image, n);
        ShowsSize(ram0, pagetable, image, sz + n);
        sz := sz + n;
        image := image.(sz := sz);
      } else if n < 0 {
        var ret := Growproc(n);
        if ret < 0 {
          addr := -1;
        }
      }
    }

    /**
     * usertrap for a load or store page fault at va.  A page mapped without
     * user access makes mappages panic, unless no page is free.
     */
    method PageFault(va: nat) returns (panic: bool, killed: bool)
      requires Valid()
      modifies `image, memory
      ensures !panic ==> Valid() && OthersSame(old(memory.ram), old(memory.sh), memory.ram, memory.sh, pagetable)
      ensures va >= sz ==> !panic && killed
      ensures va < sz && va / 4096 in old(image).mem ==>
                (panic || killed <==> !U(old(image).flags[va / 4096]))
      ensures killed || va / 4096 in old(image).mem ==> image == old(image)
      ensures killed && va < sz ==> old(memory.freePages) <= 2 && memory.freePages <= 1
      ensures va < sz && va / 4096 !in old(image).mem ==>
                !panic && (!killed ==> image == Added(old(image), va / 4096, 1))
    {
      hide Inv;
      hide Pte;
      hide Managed;
      hide Grew;
      hide Extended;
      hide Added;
      hide OthersSame;
      hide Ppn;
      panic, killed := false, false;
      ghost var ram0, use0, pos0, head0, sh0, user0 :=
        memory.ram, memory.use, memory.pos, memory.freelist, memory.sh, memory.user;
      assert Shows(ram0, pagetable, image);
      Unchanged(ram0, use0, pos0, head0, sh0, user0, pagetable, image);
      if va >= sz {
        killed := true;
        return;
      }
      ghost var v := va / 4096;
      assert ShowsPage(ram0, pagetable, image, v);
      UserFlag(Pte(ram0, pagetable, v));
      assert !U(0);
      hide Shows;
      hide U;
      var ret;
      panic, ret := memory.LazyAlloc(pagetable, va);
      if panic {
        return;
      }
      killed := ret < 0;
      if killed || v in image.mem {
        ExtendedShows(ram0, use0, pos0, head0, sh0, user0, memory.ram, memory.use, memory.sh, pagetable, image);
      } else {
        GrewShows(ram0, use0, pos0, head0, sh0, user0, memory.ram, memory.use, memory.sh, pagetable, v, 1, image);
        AddedImage(image, v);
        image := Added(image, v, 1);
      }
    }

    /** The hardware's check of an access. */
    method Permitted(a: nat, write: bool) returns (ok: bool)
      requires Valid() && a < TRAPFRAME_VPN * 4096
      ensures ok <==> a / 4096 in image.mem && Allows(image.flags[a / 4096], write)
    {
      hide Inv;
      hide Pte;
      hide Ppn;
      hide Managed;
      assert ShowsPage(memory.ram, pagetable, image, a / 4096);
      var w := Pte(memory.ram, pagetable, a / 4096);
      ok := w != 0 && Allows(w % 1024, write);
    }

    /** The access itself, to a page that permits it. */
    method Perform(a: nat, op: Access) returns (word: nat, ghost out: Outcome)
      requires Valid() && a < TRAPFRAME_VPN * 4096 && a / 4096 in image.mem
      modifies `image, memory`ram
      ensures Valid() && out == Touched(old(image), a, op) && out.Fine? && image == out.space && word == out.word
      ensures OthersSame(old(memory.ram), memory.sh, memory.ram, memory.sh, pagetable)
    {
      hide Inv;
      hide Pte;
      hide Ppn;
      hide Managed;
      hide OthersSame;
      ghost var v := a / 4096;
      ghost var ram0 := memory.ram;
      assert ShowsPage(memory.ram, pagetable, image, v);
      Unchanged(ram0, memory.use, memory.pos, memory.freelist, memory.sh, memory.user, pagetable, image);
      hide Shows;
      var c, k := Ppn(Pte(memory.ram, pagetable, a / 4096)), a % 4096 / 8;
      assert k < 512 && |image.mem[v]| == 512;
      var page := memory.ram[c];
      word := page[k];
      match op
      case Load =>
        out := Fine(page[k], image);
      case Store(w) =>
        var page': Page := page[k := w];
        StoreShows(ram0, memory.use, memory.pos, memory.freelist, memory.sh, memory.user, pagetable, image, v, page');
        memory.ram := memory.ram[c := page'];
        out := Fine(page[k], image.(mem := image.mem[v := page']));
        image := out.space;
    }

    /**
     * A load or store by the user program, with the faults it takes.  Short of
     * memory running out it ends as the lazy image says.
     */
    method Access(a: nat, op: Access) returns (reply: Reply, ghost out: Outcome)
      requires Valid() && a < TRAPFRAME_VPN * 4096
      modifies `image, memory
      ensures Tells(reply, out)
      ensures out == LazyAccess(old(image), a,
                                op) || (out == Killed && old(memory.freePages) <= 2 && memory.freePages <= 1)
      ensures out.Fine? ==> Valid() && image == out.space && Accessed(old(image), image, a, op, out.word)
      ensures out.Killed? ==> Valid() && image == old(image)
      ensures !out.Stuck? ==> OthersSame(old(memory.ram), old(memory.sh), memory.ram, memory.sh, pagetable)
    {
      hide Inv;
      hide Pte;
      hide Managed;
      hide Added;
      hide OthersSame;
      hide Ppn;
      hide Shows;
      hide Touched;
      ghost var image0, ram0, sh0 := image, memory.ram, memory.sh;
      assert Shows(ram0, pagetable, image);
      Unchanged(ram0, memory.use, memory.pos, memory.freelist, memory.sh, memory.user, pagetable, image);
      var ok := Permitted(a, op.Store?);
      if !ok {
        var panic, killed := PageFault(a);
        if panic {
          return Hang, Stuck;
        }
        if killed {
          return Kill, Killed;
        }
        ok := Permitted(a, op.Store?);
        AddedAllows(image0, a / 4096, op.Store?);
        if !ok {
          return Hang, Stuck;
        }
      }
      ghost var ram1, sh1 := memory.ram, memory.sh;
      var word;
      word, out := Perform(a, op);
      reply := Word(word);
      LazyWords(image0, a, op);
      SameTwice(ram0, sh0, ram1, sh1, memory.ram, memory.sh, pagetable);
    }

    /** One operation of a program. */
    method Step(ops: seq<Op>, ghost e: Space) returns (ok: bool, word: nat)
      requires Valid() && Stands(image, e) && PagesOk(e) && ops != [] && Proper(e, ops) && Within(e, ops)
      modifies `sz, `image, memory
      ensures Valid() && IntArgument(ops[0]) && EagerStep(e, ops[0]).Fine?
      ensures ok ==> word == EagerStep(e, ops[0]).word && Stands(image, EagerStep(e, ops[0]).space)
      ensures !ok ==> memory.freePages <= 1
      ensures OthersSame(old(memory.ram), old(memory.sh), memory.ram, memory.sh, pagetable)
    {
      hide Inv;
      hide Managed;
      hide Shows;
      hide Stands;
      hide Proper;
      hide Within;
      hide EagerStep;
      hide OthersSame;
      hide LazySbrk;
      hide LazyAccess;
      RunUnfold(e, ops);
      StepAgrees(image, e, ops);
      StandsSize(image, e);
      ok := true;
      match ops[0] {
        case Sbrk(n) =>
          word := Sbrk(n);
        case Access(a, op) =>
          var reply;
          ghost var out;
          reply, out := Access(a, op);
          if reply.Word? {
            word := reply.word;
          } else {
            ok, word := false, 0;
          }
      }
    }

    /**
     * A program on the page tables: as long as memory lasts, what its
     * operations return is what they return with the eager allocator: for
     * an access the word last stored there.
     */
    method Run(ops: seq<Op>, ghost e: Space) returns (replies: seq<nat>)
      requires Valid() && Stands(image, e) && PagesOk(e) && Proper(e, ops) && Within(e, ops)
      modifies `sz, `image, memory
      ensures Valid() && |replies| <= |ops| && |EagerTrace(e, ops)| == |ops|
      ensures replies == EagerTrace(e, ops)[..|replies|]
      ensures Remembered(e, ops, replies)
      ensures |replies| == |ops| || memory.freePages <= 1
    {
      hide Inv;
      hide Managed;
      hide Shows;
      hide Stands;
      hide PagesOk;
      hide Proper;
      hide Within;
      hide EagerTrace;
      hide EagerStep;
      hide OthersSame;
      hide Remembered;
      replies := [];
      var k := 0;
      ghost var now := e;
      TraceLength(e, ops);
      assert ops[0..] == ops;
      while k < |ops|
        invariant 0 <= k <= |ops| && |replies| == k
        invariant Valid() && Stands(image, now) && PagesOk(now) && Proper(now, ops[k..]) && Within(now, ops[k..])
        invariant EagerTrace(e, ops) == replies + EagerTrace(now, ops[k..])
      {
        RunUnfold(now, ops[k..]);
        assert ops[k..][1..] == ops[k + 1..];
        var ok, word := Step(ops[k..], now);
        if !ok {
          TraceRemembered(e, ops, k);
          assert EagerTrace(e, ops)[..k] == replies;
          return;
        }
        replies := replies + [word];
        now := EagerStep(now, ops[k]).space;
        k := k + 1;
      }
      TraceRemembered(e, ops, k);
      assert EagerTrace(e, ops)[..k] == replies;
    }
  }

  lemma {:induction false} TraceLength(e: Space, ops: seq<Op>)
    requires PagesOk(e) && Proper(e, ops)
    ensures |EagerTrace(e, ops)| == |ops|
    decreases |ops|
  {
    hide EagerStep;
    if ops != [] {
      TraceLength(EagerStep(e, ops[0]).space, ops[1..]);
    }
  }

  /** The sizes of a run stay below the trapframe. */
  ghost predicate Within(s: Space, ops: seq<Op>)
    requires PagesOk(s) && Proper(s, ops)
    decreases |ops|
  {
    && s.sz <= TRAPFRAME_VPN * 4096
    && (ops == [] || (&& (ops[0].Sbrk? && ops[0].n > 0 ==> s.sz + ops[0].n <= TRAPFRAME_VPN * 4096)
                      && Within(EagerStep(s, ops[0]).space, ops[1..])))
  }

  lemma RunUnfold(e: Space, ops: seq<Op>)
    requires PagesOk(e) && Proper(e, ops) && Within(e, ops) && ops != []
    ensures IntArgument(ops[0]) && e.flags.Keys == e.mem.Keys && EagerStep(e, ops[0]).Fine?
    ensures ops[0].Access? ==> ops[0].a < e.sz <= TRAPFRAME_VPN * 4096
    ensures ops[0].Sbrk? && ops[0].n > 0 ==> e.sz + ops[0].n <= TRAPFRAME_VPN * 4096
    ensures var out := EagerStep(e, ops[0]);
      && PagesOk(out.space) && Proper(out.space, ops[1..]) && Within(out.space, ops[1..])
      && EagerTrace(e, ops) == [out.word] + EagerTrace(out.space, ops[1..])
  {
    hide EagerStep;
  }

  lemma StepAgrees(l: Space, e: Space, ops: seq<Op>)
    requires Stands(l, e) && PagesOk(e) && Proper(e, ops) && ops != []
    ensures IntArgument(ops[0]) && PagesOk(l) && SameOutcome(LazyStep(l, ops[0]), EagerStep(e, ops[0]))
  {
    StandsSize(l, e);
    hide Stands;
    StepStands(l, e, ops[0]);
  }

  lemma AddedAllows(s: Space, v: nat, write: bool)
    ensures v in Added(s, v, 1).mem && v in Added(s, v, 1).flags && Allows(Added(s, v, 1).flags[v], write)
  {
    assert Between(v, 1, v);
  }

  lemma SameTwice(ram: map<nat, Page>, sh: Shape, ram1: map<nat, Page>, sh1: Shape, ram2: map<nat, Page>, sh2: Shape,
                  r: nat)
    requires OthersSame(ram, sh, ram1, sh1, r) && OthersSame(ram1, sh1, ram2, sh2, r)
    ensures OthersSame(ram, sh, ram2, sh2, r)
  {
    hide Pte;
    hide Ppn;
    hide IsRoot;
    forall q: nat, u: nat {:trigger SamePage(ram, ram2, q, u)} | IsRoot(sh, q) && q != r && u < TRAPFRAME_VPN
      ensures SamePage(ram, ram2, q, u)
    {
      assert SamePage(ram, ram1, q, u) && SamePage(ram1, ram2, q, u);
    }
  }

  lemma UserFlag(w: nat)
    ensures U(w) == U(w % 1024)
  {
    assert w == 1024 * (w / 1024) + w % 1024;
    assert w / 16 == 64 * (w / 1024) + w % 1024 / 16;
  }

  lemma AddedImage(s: Space, v: nat)
    requires PagesOk(s) && v < PageUp(s.sz)
    ensures PagesOk(Added(s, v, 1)) && Added(s, v, 1).sz == s.sz
  {
    assert |Filled(0)| == 512;
    hide Filled;
  }

  lemma Unchanged(ram: map<nat, Page>, use: map<nat, Use>, pos: map<nat, nat>, head: nat, sh: Shape,
                  user: map<nat, Place>, r: nat, s: Space)
    requires Inv(ram, use, pos, head, sh, user) && IsRoot(sh, r) && Shows(ram, r, s)
    ensures OthersSame(ram, sh, ram, sh, r)
  {
    hide Inv;
    hide Pte;
    InvKeys(ram, use, pos, head, sh, user);
    ExtendedRefl(ram, use, sh);
    ExtendedShows(ram, use, pos, head, sh, user, ram, use, sh, r, s);
  }

  lemma ShrunkImage(s: Space, newsz: nat, m: nat)
    requires m == if newsz < s.sz then newsz else s.sz
    requires PagesOk(s)
    ensures Shrunk(s, m) == Shrunk(s, newsz) && PagesOk(Shrunk(s, newsz)) && Shrunk(s, newsz).sz == m
  {
  }

  lemma GrownImage(s: Space, n: nat)
    requires PagesOk(s)
    ensures PagesOk(Added(s, PageUp(s.sz), PageUp(s.sz + n) - PageUp(s.sz)).(sz := s.sz + n))
    ensures PagesOk(s.(sz := s.sz + n))
  {
    assert |Filled(0)| == 512;
    hide Filled;
  }

  lemma ShowsSize(ram: map<nat, Page>, r: nat, s: Space, sz: nat)
    requires Shows(ram, r, s)
    ensures Shows(ram, r, s.(sz := sz))
  {
    hide Pte;
    hide Ppn;
    forall u: nat {:trigger ShowsPage(ram, r, s.(sz := sz), u)} | u < TRAPFRAME_VPN
      ensures ShowsPage(ram, r, s.(sz := sz), u)
    {
      assert ShowsPage(ram, r, s, u);
    }
  }
}
