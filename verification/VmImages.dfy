/**
 * Many address spaces at once: what the page tables hold is a table of images,
 * one for each address space, and what each operation of kernel/vm.c does to it.
 */
module VmImages {
  import opened Pages
  import opened PageTable
  import opened VmState
  import opened Vm
  import opened Lazy
  import opened Process

  ghost predicate ClearFrom(ram: map<nat, Page>, r: nat, n: nat)
  {
    forall u: nat {:trigger Pte(ram, r, u)} | n <= u < VPN_LIMIT :: Pte(ram, r, u) == 0
  }

  /** No address space has a page mapped above its size. */
  ghost predicate Fitted(ram: map<nat, Page>, sizes: map<nat, nat>)
  {
    forall r | r in sizes :: sizes[r] <= TRAPFRAME_VPN * 4096 && ClearFrom(ram, r, PageUp(sizes[r]))
  }

  ghost predicate NoneHeld(use: map<nat, Use>)
  {
    forall p | p in use :: use[p] != Held
  }

  ghost predicate AreRoots(sh: Shape, sizes: map<nat, nat>)
  {
    forall r | r in sizes :: IsRoot(sh, r)
  }

  lemma RootsOf(sh: Shape, sizes: map<nat, nat>)
    requires Roots(sh, sizes.Keys)
    ensures AreRoots(sh, sizes)
  {
    forall r | r in sizes
      ensures IsRoot(sh, r)
    {
      assert r in sizes.Keys;
    }
  }

  lemma ExtendedFits(ram: map<nat, Page>, use: map<nat, Use>, sh: Shape, ram': map<nat, Page>, use': map<nat, Use>,
                     sh': Shape, sizes: map<nat, nat>)
    requires Extended(ram, use, sh, ram', use', sh') && AreRoots(sh, sizes) && Fitted(ram, sizes) && NoneHeld(use)
    ensures Fitted(ram', sizes) && NoneHeld(use') && ram'.Keys == ram.Keys
  {
    hide Pte;
    hide IsRoot;
  }

  lemma GrewFits(ram: map<nat, Page>, use: map<nat, Use>, sh: Shape, ram': map<nat, Page>, use': map<nat, Use>,
                 sh': Shape, r: nat, v: nat, n: nat, want: Want, sizes: map<nat, nat>, sz: nat)
    requires Grew(ram, use, sh, ram', use', sh', r, v, n, want) && AreRoots(sh, sizes) && Fitted(ram, sizes)
    requires NoneHeld(use)
    requires r in sizes && sizes[r] <= sz <= TRAPFRAME_VPN * 4096 && v + n <= PageUp(sz)
    ensures Fitted(ram', sizes[r := sz]) && NoneHeld(use') && ram'.Keys == ram.Keys
  {
    hide Pte;
    hide IsRoot;
    hide Behind;
    hide NewPage;
    assert PageUp(sizes[r]) <= PageUp(sz);
    hide PageUp;
  }

  lemma UnmappedFits(ram: map<nat, Page>, use: map<nat, Use>, sh: Shape, user: map<nat, Place>,
                     ram': map<nat, Page>, use': map<nat, Use>, user': map<nat, Place>, r: nat, sizes: map<nat, nat>,
                     sz: nat)
    requires r in sizes && sz <= sizes[r] && AreRoots(sh, sizes) && Fitted(ram, sizes) && NoneHeld(use)
    requires PageUp(sz) <= PageUp(sizes[r])
    requires Unmapped(ram, use, sh, user, ram', use', user', r, PageUp(sz), PageUp(sizes[r]) - PageUp(sz), Free)
    ensures Fitted(ram', sizes[r := sz]) && NoneHeld(use') && ram'.Keys == ram.Keys
  {
    hide Pte;
    hide IsRoot;
    hide InRange;
    hide PageUp;
  }

  lemma FreedFits(ram: map<nat, Page>, use: map<nat, Use>, sh: Shape, user: map<nat, Place>,
                  ram': map<nat, Page>, use': map<nat, Use>, sh': Shape, r: nat, sizes: map<nat, nat>)
    requires SpaceFreed(ram, use, sh, user, ram', use', sh', r) && AreRoots(sh, sizes) && Fitted(ram, sizes)
    requires NoneHeld(use)
    ensures Fitted(ram', sizes - {r}) && NoneHeld(use') && ram'.Keys == ram.Keys
  {
    hide Pte;
    hide IsRoot;
    hide OwnedBy;
    hide PageUp;
  }

  lemma CreatedFits(ram: map<nat, Page>, use: map<nat, Use>, sh: Shape, ram': map<nat, Page>, sh': Shape,
                    r: nat, sizes: map<nat, nat>)
    requires SameMaps(ram, sh, ram', sh') && AreRoots(sh, sizes) && Fitted(ram, sizes) && NoneHeld(use)
    requires ClearFrom(ram', r, 0) && r in use
    ensures Fitted(ram', sizes[r := 0]) && NoneHeld(use[r := Table])
  {
    hide Pte;
    hide IsRoot;
  }

  // ---- images ----

  /** All pages are open to the user for reading and writing. */
  ghost predicate Open(s: Space)
  {
    forall u | u in s.flags :: s.flags[u] == HEAP_FLAGS
  }

  /** Address space r, of size sz, shows s. */
  ghost predicate ImageOk(ram: map<nat, Page>, r: nat, sz: nat, s: Space)
  {
    s.sz == sz && PagesOk(s) && Open(s) && Shows(ram, r, s)
  }

  ghost predicate Images(ram: map<nat, Page>, sizes: map<nat, nat>, images: map<nat, Space>)
  {
    images.Keys == sizes.Keys && forall r | r in images :: ImageOk(ram, r, sizes[r], images[r])
  }

  lemma OtherShows(ram: map<nat, Page>, sh: Shape, ram': map<nat, Page>, sh': Shape, r: nat, q: nat, sz: nat, s: Space)
    requires OthersSame(ram, sh, ram', sh', r) && IsRoot(sh, q) && q != r && ImageOk(ram, q, sz, s)
    ensures ImageOk(ram', q, sz, s)
  {
    hide Pte;
    hide Ppn;
    hide IsRoot;
    forall v: nat {:trigger ShowsPage(ram', q, s, v)} | v < TRAPFRAME_VPN
      ensures ShowsPage(ram', q, s, v)
    {
      assert ShowsPage(ram, q, s, v) && SamePage(ram, ram', q, v);
    }
  }

  /** Address space r changes to s and no other does. */
  lemma ImagesStep(ram: map<nat, Page>, sh: Shape, ram': map<nat, Page>, sh': Shape, r: nat,
                   sizes: map<nat, nat>, images: map<nat, Space>, sz: nat, s: Space)
    requires Images(ram, sizes, images) && AreRoots(sh, sizes) && OthersSame(ram, sh, ram', sh', r)
    requires ImageOk(ram', r, sz, s)
    ensures Images(ram', sizes[r := sz], images[r := s])
  {
    hide ImageOk;
    hide OthersSame;
    hide IsRoot;
    forall q | q in images && q != r
      ensures ImageOk(ram', q, sizes[q], images[q])
    {
      OtherShows(ram, sh, ram', sh', r, q, sizes[q], images[q]);
    }
  }

  lemma ImageOf(ram: map<nat, Page>, sizes: map<nat, nat>, images: map<nat, Space>, r: nat)
    requires Images(ram, sizes, images) && r in sizes
    ensures r in images && ImageOk(ram, r, sizes[r], images[r])
    ensures images[r].sz == sizes[r] && PagesOk(images[r]) && Open(images[r]) && Shows(ram, r, images[r])
  {
    assert r in images;
  }

  lemma AddedOpen(s: Space, v: nat, n: nat, sz: nat)
    requires Open(s)
    ensures Open(Added(s, v, n).(sz := sz))
  {
    hide Filled;
  }

  lemma SizeOpen(s: Space, sz: nat)
    requires Open(s)
    ensures Open(s.(sz := sz))
  {
  }

  lemma ShrunkOpen(s: Space, sz: nat)
    requires Open(s) && PagesOk(s)
    ensures Open(Shrunk(s, sz))
  {
  }

  lemma StoredOpen(s: Space, v: nat, page: Page)
    requires Open(s) && PagesOk(s) && v in s.mem && |page| == 512
    ensures Open(s.(mem := s.mem[v := page])) && PagesOk(s.(mem := s.mem[v := page]))
  {
  }

  /** A store into a user page maps nothing. */
  lemma StoredFits(ram: map<nat, Page>, use: map<nat, Use>, pos: map<nat, nat>, head: nat, sh: Shape, user: map<nat,
                   Place>,
                   r: nat, v: nat, page: Page, sizes: map<nat, nat>)
    requires Inv(ram, use, pos, head, sh, user) && IsRoot(sh, r) && v < TRAPFRAME_VPN && Pte(ram, r, v) != 0
    requires AreRoots(sh, sizes) && Fitted(ram, sizes) && |page| == 512
    ensures Fitted(ram[Ppn(Pte(ram, r, v)) := page], sizes)
  {
    hide Inv;
    hide Pte;
    hide Ppn;
    hide IsRoot;
    hide PageUp;
    OnlyThere(ram, use, pos, head, sh, user, r, v);
    InvKeys(ram, use, pos, head, sh, user);
    InvFill(ram, use, pos, head, sh, user, Ppn(Pte(ram, r, v)), page);
  }

  /** A page of an open image is mapped and permits every access. */
  lemma OpenAllows(ram: map<nat, Page>, r: nat, s: Space, v: nat, write: bool)
    requires Shows(ram, r, s) && Open(s) && PagesOk(s) && v < TRAPFRAME_VPN
    ensures v in s.mem <==> Pte(ram, r, v) != 0
    ensures v in s.mem ==> v in s.flags && Allows(s.flags[v], write)
  {
    hide Pte;
    hide Ppn;
    assert ShowsPage(ram, r, s, v);
  }

  ghost predicate TableOk(t: map<nat, Space>)
  {
    forall r {:trigger t[r]} | r in t :: PagesOk(t[r])
  }

  lemma TableFacts(ram: map<nat, Page>, sizes: map<nat, nat>, images: map<nat, Space>)
    requires Images(ram, sizes, images)
    ensures images.Keys == sizes.Keys
    ensures TableOk(images) && forall r {:trigger images[r]} | r in images :: images[r].sz == sizes[r]
  {
    hide Shows;
  }

  lemma NowClear(ram: map<nat, Page>, r: nat)
    requires forall u: nat {:trigger Pte(ram, r, u)} | u < VPN_LIMIT :: Pte(ram, r, u) == 0
    ensures ClearFrom(ram, r, 0)
  {
    hide Pte;
  }

  lemma FreshImage(ram: map<nat, Page>, r: nat)
    requires ClearFrom(ram, r, 0)
    ensures ImageOk(ram, r, 0, Space(0, map[], map[]))
  {
    hide Pte;
    hide Ppn;
  }

  /** A new page table changes no address space. */
  lemma CreatedOthers(ram: map<nat, Page>, use: map<nat, Use>, pos: map<nat, nat>, head: nat, sh: Shape,
                      user: map<nat, Place>, ram': map<nat, Page>, sh': Shape, r: nat)
    requires Inv(ram, use, pos, head, sh, user) && SameMaps(ram, sh, ram', sh') && SameData(ram, use, ram')
    ensures OthersSame(ram, sh, ram', sh', r) && ram'.Keys == ram.Keys
  {
    hide Inv;
    hide Pte;
    hide Ppn;
    hide IsRoot;
    forall q: nat, u: nat {:trigger SamePage(ram, ram', q, u)} | IsRoot(sh, q) && q != r && u < TRAPFRAME_VPN
      ensures SamePage(ram, ram', q, u)
    {
      assert Pte(ram', q, u) == Pte(ram, q, u);
      UserKept(ram, use, pos, head, sh, user, ram', q, u);
    }
  }

  /** Destroying r changes no other address space. */
  lemma FreedOthers(ram: map<nat, Page>, use: map<nat, Use>, pos: map<nat, nat>, head: nat, sh: Shape,
                    user: map<nat, Place>, ram': map<nat, Page>, use': map<nat, Use>, sh': Shape, r: nat, q: nat,
                    sz: nat, s: Space)
    requires Inv(ram, use, pos, head, sh, user) && SpaceFreed(ram, use, sh, user, ram', use', sh', r)
    requires IsRoot(sh, q) && q != r && ImageOk(ram, q, sz, s)
    ensures ImageOk(ram', q, sz, s)
  {
    hide Inv;
    hide Pte;
    hide Ppn;
    InvFacts(ram, use, pos, head, sh, user);
    forall v: nat {:trigger ShowsPage(ram', q, s, v)} | v < TRAPFRAME_VPN
      ensures ShowsPage(ram', q, s, v)
    {
      assert ShowsPage(ram, q, s, v);
      assert Pte(ram', q, v) == Pte(ram, q, v);
      if Pte(ram, q, v) != 0 {
        OnlyThere(ram, use, pos, head, sh, user, q, v);
        var c := Ppn(Pte(ram, q, v));
        assert InRange(sh, user, c, q, v, 1);
        assert !OwnedBy(sh, user, c, r);
      }
    }
  }

  lemma ImagesFreed(ram: map<nat, Page>, use: map<nat, Use>, pos: map<nat, nat>, head: nat, sh: Shape,
                    user: map<nat, Place>, ram': map<nat, Page>, use': map<nat, Use>, sh': Shape, r: nat,
                    sizes: map<nat, nat>, images: map<nat, Space>)
    requires Inv(ram, use, pos, head, sh, user) && SpaceFreed(ram, use, sh, user, ram', use', sh', r)
    requires AreRoots(sh, sizes) && Images(ram, sizes, images)
    ensures Images(ram', sizes - {r}, images - {r})
  {
    hide Inv;
    hide SpaceFreed;
    hide ImageOk;
    hide IsRoot;
    forall q | q in images && q != r
      ensures ImageOk(ram', q, sizes[q], images[q])
    {
      FreedOthers(ram, use, pos, head, sh, user, ram', use', sh', r, q, sizes[q], images[q]);
    }
  }

  /** The child of a fork shows what the parent does. */
  lemma CopyShows(ram: map<nat, Page>, use: map<nat, Use>, pos: map<nat, nat>, head: nat, sh: Shape,
                  user: map<nat, Place>, ram': map<nat, Page>, use': map<nat, Use>, sh': Shape, r: nat, child: nat,
                  s: Space)
    requires Inv(ram, use, pos, head, sh, user) && IsRoot(sh, r) && IsRoot(sh, child)
    requires PagesOk(s) && Open(s) && Shows(ram, r, s) && ClearFrom(ram, child, 0) && PageUp(s.sz) <= TRAPFRAME_VPN
    requires Grew(ram, use, sh, ram', use', sh', child, 0, PageUp(s.sz), CopyOf(r, ram))
    requires !HasHole(ram, r, PageUp(s.sz))
    ensures ImageOk(ram', child, s.sz, s) && OthersSame(ram, sh, ram', sh', child)
  {
    hide Inv;
    hide Pte;
    hide Behind;
    hide Ppn;
    hide IsRoot;
    hide PageUp;
    forall u: nat {:trigger ShowsPage(ram', child, s, u)} | u < TRAPFRAME_VPN
      ensures ShowsPage(ram', child, s, u)
    {
      CopiedPageShows(ram, use, sh, ram', use', sh', r, child, s, u);
    }
    forall q: nat, u: nat {:trigger SamePage(ram, ram', q, u)} | IsRoot(sh, q) && q != child && u < TRAPFRAME_VPN
      ensures SamePage(ram, ram', q, u)
    {
      assert Pte(ram', q, u) == Pte(ram, q, u);
      UserKept(ram, use, pos, head, sh, user, ram', q, u);
    }
  }

  lemma CopiedPageShows(ram: map<nat, Page>, use: map<nat, Use>, sh: Shape, ram': map<nat, Page>, use': map<nat, Use>,
                        sh': Shape, r: nat, child: nat, s: Space, u: nat)
    requires IsRoot(sh, child) && u < TRAPFRAME_VPN
    requires PagesOk(s) && Open(s) && Shows(ram, r, s) && ClearFrom(ram, child, 0)
    requires Grew(ram, use, sh, ram', use', sh', child, 0, PageUp(s.sz), CopyOf(r, ram))
    requires !HasHole(ram, r, PageUp(s.sz))
    ensures ShowsPage(ram', child, s, u)
  {
    hide Pte;
    hide Behind;
    hide IsRoot;
    hide PageUp;
    assert ShowsPage(ram, r, s, u);
    if u < PageUp(s.sz) {
      assert NewPage(use, ram', use', child, u, CopyOf(r, ram));
      assert Pte(ram, r, u) != 0;
      EntryFields(Ppn(Pte(ram', child, u)), Pte(ram, r, u) % 1024);
      assert s.flags[u] == HEAP_FLAGS;
    } else {
      GrewOutside(ram, use, sh, ram', use', sh', child, 0, PageUp(s.sz), CopyOf(r, ram), u);
    }
  }

  /** A page that the image lacks is a hole. */
  lemma HoleShows(ram: map<nat, Page>, r: nat, s: Space)
    requires Shows(ram, r, s) && PageUp(s.sz) <= TRAPFRAME_VPN
    ensures HasHole(ram, r, PageUp(s.sz)) <==> Untouched(s)
  {
    hide Pte;
    hide Ppn;
    hide PageUp;
    if Untouched(s) {
      var u: nat :| u < PageUp(s.sz) && u !in s.mem;
      assert ShowsPage(ram, r, s, u);
    }
    if HasHole(ram, r, PageUp(s.sz)) {
      var u: nat :| u < PageUp(s.sz) && Pte(ram, r, u) == 0;
      assert ShowsPage(ram, r, s, u);
    }
  }

  /** Some page below the size was never filled in. */
  ghost predicate Untouched(s: Space)
  {
    exists u: nat :: u < PageUp(s.sz) && u !in s.mem
  }

  // ---- sizes ----

  /** Without address spaces every page is free. */
  lemma AllBack(ram: map<nat, Page>, use: map<nat, Use>, pos: map<nat, nat>, head: nat, sh: Shape, user: map<nat,
                Place>)
    requires Inv(ram, use, pos, head, sh, user) && Roots(sh, {}) && NoneHeld(use)
    ensures pos.Keys == ram.Keys && forall p | p in use :: use[p] == Free
  {
    hide Inv;
    hide Roots;
    NoSpaces(ram, use, pos, head, sh, user);
    FreeSet(ram, use, pos, head, sh, user);
    InvFacts(ram, use, pos, head, sh, user);
  }

  lemma PageUpMonotone(a: nat, b: nat)
    requires a <= b
    ensures PageUp(a) <= PageUp(b)
  {
  }

  lemma PageBelow(va: nat, sz: nat)
    requires va < sz
    ensures va / 4096 + 1 <= PageUp(sz)
  {
  }

  lemma NewSpace(ram: map<nat, Page>, sh: Shape, sizes: map<nat, nat>, images: map<nat, Space>, r: nat)
    requires AreRoots(sh, sizes) && Images(ram, sizes, images) && r !in sh
    ensures r !in sizes && r !in images && sizes[r := 0].Keys == sizes.Keys + {r}
  {
    assert r in sizes ==> IsRoot(sh, r);
  }

  lemma SizeFits(ram: map<nat, Page>, sizes: map<nat, nat>, r: nat, sz: nat)
    requires Fitted(ram, sizes) && r in sizes && sizes[r] <= sz <= TRAPFRAME_VPN * 4096
    ensures ClearFrom(ram, r, PageUp(sizes[r])) && PageUp(sizes[r]) <= PageUp(sz) <= TRAPFRAME_VPN < VPN_LIMIT
  {
    hide ClearFrom;
  }

  /** A larger size covers the same pages. */
  lemma LargerFits(ram: map<nat, Page>, sizes: map<nat, nat>, r: nat, sz: nat)
    requires Fitted(ram, sizes) && r in sizes && sizes[r] <= sz <= TRAPFRAME_VPN * 4096
    ensures Fitted(ram, sizes[r := sz]) && sizes[r := sz].Keys == sizes.Keys
  {
    hide PageUp;
    PageUpMonotone(sizes[r], sz);
    var sizes' := sizes[r := sz];
    forall q | q in sizes'
      ensures sizes'[q] <= TRAPFRAME_VPN * 4096 && ClearFrom(ram, q, PageUp(sizes'[q]))
    {
      assert ClearFrom(ram, q, PageUp(sizes[q]));
    }
  }
}
