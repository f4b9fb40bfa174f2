/**
 * One invariant over physical memory, its owners and every user page table,
 * and what the elementary updates of kernel/kalloc.c and kernel/vm.c do to it.
 */
module VmState {
  import opened Pages
  import opened PageTable
  import opened Teardown

  const JUNK_FREED: nat := 0x0101010101010101
  const JUNK_ALLOCATED: nat := 0x0505050505050505

  const PTE_R: nat := 2
  const PTE_W: nat := 4
  const PTE_U: nat := 16

  ghost predicate Inv(ram: map<nat, Page>, use: map<nat, Use>, pos: map<nat, nat>, head: nat,
                      sh: Shape, user: map<nat, Place>)
  {
    && Allocator(ram, use, pos, head, sh.Keys, user.Keys)
    && Tree(ram, sh, {})
    && Leaves(ram, sh, user)
  }

  /** The address spaces there are. */
  ghost predicate Roots(sh: Shape, roots: set<nat>)
  {
    forall q: nat {:trigger IsRoot(sh, q)} :: q in roots <==> IsRoot(sh, q)
  }

  /** One of the first n pages of address space r is not mapped. */
  ghost predicate HasHole(ram: map<nat, Page>, r: nat, n: nat)
  {
    exists u: nat {:trigger Pte(ram, r, u)} :: u < n && Pte(ram, r, u) == 0
  }

  /** None of them is mapped. */
  ghost predicate NoneMapped(ram: map<nat, Page>, r: nat, n: nat)
  {
    forall u: nat {:trigger Pte(ram, r, u)} | u < n :: Pte(ram, r, u) == 0
  }

  /** No translation of any address space changes. */
  ghost predicate SameMaps(ram: map<nat, Page>, sh: Shape, ram': map<nat, Page>, sh': Shape)
  {
    && (forall r | IsRoot(sh, r) :: IsRoot(sh', r))
    && (forall r: nat, v: nat {:trigger Pte(ram', r, v)} | IsRoot(sh, r) && v < VPN_LIMIT ::
          Pte(ram', r, v) == Pte(ram, r, v))
  }

  /** Pages in use other than page tables keep their contents. */
  ghost predicate SameData(ram: map<nat, Page>, use: map<nat, Use>, ram': map<nat, Page>)
  {
    && ram'.Keys == ram.Keys == use.Keys
    && (forall p {:trigger ram'[p]} | p in use && (use[p] == User || use[p] == Held) :: ram'[p] == ram[p])
  }

  lemma InvFacts(ram: map<nat, Page>, use: map<nat, Use>, pos: map<nat, nat>, head: nat,
                 sh: Shape, user: map<nat, Place>)
    requires Inv(ram, use, pos, head, sh, user)
    ensures RamOk(ram) && use.Keys == ram.Keys && Domains(ram, sh) && user.Keys <= ram.Keys && pos.Keys <= ram.Keys
    ensures forall p | p in sh :: p in use && use[p] == Table
    ensures forall p | p in user :: p in use && use[p] == User
    ensures forall p | p in pos :: p in use && use[p] == Free
    ensures head == 0 <==> pos.Keys == {}
  {
    Head(ram, pos, head);
    hide Tree;
    hide Leaves;
    assert Domains(ram, sh) by {
      TreeFacts(ram, sh, {});
    }
    hide FreeList;
  }

  lemma InvKeys(ram: map<nat, Page>, use: map<nat, Use>, pos: map<nat, nat>, head: nat,
                sh: Shape, user: map<nat, Place>)
    requires Inv(ram, use, pos, head, sh, user)
    ensures RamOk(ram) && use.Keys == ram.Keys
  {
  }

  lemma TreeFacts(ram: map<nat, Page>, sh: Shape, loose: set<nat>)
    requires Tree(ram, sh, loose)
    ensures RamOk(ram) && Domains(ram, sh)
  {
  }

  /** Replacing a page that is neither free nor a table disturbs nothing. */
  lemma InvFill(ram: map<nat, Page>, use: map<nat, Use>, pos: map<nat, nat>, head: nat,
                sh: Shape, user: map<nat, Place>, c: nat, page: Page)
    requires Inv(ram, use, pos, head, sh, user)
    requires c in use && c in ram && (use[c] == Held || use[c] == User) && |page| == 512
    ensures Inv(ram[c := page], use, pos, head, sh, user)
    ensures SameMaps(ram, sh, ram[c := page], sh)
  {
    hide Allocator;
    hide Tree;
    hide Leaves;
    InvFacts(ram, use, pos, head, sh, user);
    Change(ram, use, pos, head, sh.Keys, user.Keys, c, page);
    PageWords(ram, c, page);
    TablesKept(ram, ram[c := page], sh, user);
  }

  lemma TablesKept(ram: map<nat, Page>, ram': map<nat, Page>, sh: Shape, user: map<nat, Place>)
    requires Tree(ram, sh, {}) && Leaves(ram, sh, user)
    requires RamOk(ram') && ram'.Keys == ram.Keys && SameWords(ram, ram', sh)
    ensures Tree(ram', sh, {}) && Leaves(ram', sh, user) && SameMaps(ram, sh, ram', sh)
  {
    hide Tree;
    hide Leaves;
    Elsewhere(ram, ram', sh, {});
    LeavesElsewhere(ram, ram', sh, user);
    forall r: nat, v: nat {:trigger Pte(ram', r, v)} | IsRoot(sh, r) && v < VPN_LIMIT
      ensures Pte(ram', r, v) == Pte(ram, r, v)
    {
      SameTables(ram, ram', sh, r, v);
    }
  }

  lemma InvAlloc(ram: map<nat, Page>, use: map<nat, Use>, pos: map<nat, nat>, head: nat,
                 sh: Shape, user: map<nat, Place>, c: nat, page: Page)
    requires Inv(ram, use, pos, head, sh, user) && head != 0 && c == head / 4096 && |page| == 512
    ensures head % 4096 == 0 && c in ram && c in use && use[c] == Free && c !in sh && c != 0 && c in pos
    ensures Inv(ram[c := page], use[c := Held], pos - {c}, Word(ram, c, 0), sh, user)
    ensures |(pos - {c}).Keys| == |pos.Keys| - 1
    ensures SameMaps(ram, sh, ram[c := page], sh)
  {
    hide Allocator;
    hide Tree;
    hide Leaves;
    InvFacts(ram, use, pos, head, sh, user);
    Pop(ram, use, pos, head, sh.Keys, user.Keys, page);
    PageWords(ram, c, page);
    TablesKept(ram, ram[c := page], sh, user);
  }

  lemma InvFree(ram: map<nat, Page>, use: map<nat, Use>, pos: map<nat, nat>, head: nat,
                sh: Shape, user: map<nat, Place>, c: nat, page: Page)
    requires Inv(ram, use, pos, head, sh, user)
    requires c in use && c in ram && use[c] == Held && |page| == 512 && page[0] == head
    ensures Inv(ram[c := page], use[c := Free], pos[c := |pos.Keys|], 4096 * c, sh, user)
    ensures |pos[c := |pos.Keys|].Keys| == |pos.Keys| + 1
    ensures SameMaps(ram, sh, ram[c := page], sh)
  {
    hide Allocator;
    hide Tree;
    hide Leaves;
    InvFacts(ram, use, pos, head, sh, user);
    Push(ram, use, pos, head, sh.Keys, user.Keys, c, page);
    PageWords(ram, c, page);
    TablesKept(ram, ram[c := page], sh, user);
  }

  lemma InvHang(ram: map<nat, Page>, use: map<nat, Use>, pos: map<nat, nat>, head: nat,
                sh: Shape, user: map<nat, Place>, p: nat, k: nat, c: nat, ram': map<nat, Page>, sh': Shape)
    requires Inv(ram, use, pos, head, sh, user)
    requires p in sh && sh[p].level > 0 && k < 512 && (sh[p].level == 2 ==> k < 256) && !V(Word(ram, p, k))
    requires c in use && c in ram && use[c] == Held && ZeroPage(ram, c)
    requires p in ram && |ram[p]| == 512 && ram' == Stored(ram, p, k, 1024 * c + 1) && sh' == Hang(sh, p, k, c)
    ensures Inv(ram', use[c := Table], pos, head, sh', user)
    ensures SameMaps(ram, sh, ram', sh')
    ensures Child(ram', p, k) == c && c !in sh && c != 0
    ensures forall q: nat, j: nat {:trigger Child(ram', q, j)} | q != p || j != k ::
      Child(ram', q, j) == Child(ram, q, j)
  {
    Pointer(c);
    hide V;
    hide Ppn;
    hide Allocator;
    hide Tree;
    hide Leaves;
    InvFacts(ram, use, pos, head, sh, user);
    StoredWords(ram, p, k, 1024 * c + 1);
    Change(ram, use, pos, head, sh.Keys, user.Keys, p, ram'[p]);
    Reuse(ram', use, pos, head, sh.Keys, user.Keys, c, Table, sh'.Keys, user.Keys);
    AddTable(ram, sh, p, k, c, ram', sh');
    LeavesAddTable(ram, sh, user, p, k, c, ram', sh');
    forall r: nat, v: nat {:trigger Pte(ram', r, v)} | IsRoot(sh, r) && v < VPN_LIMIT
      ensures Pte(ram', r, v) == Pte(ram, r, v)
    {
      AddTableSame(ram, sh, p, k, c, ram', r, v);
    }
  }

  lemma RootDown(ram: map<nat, Page>, sh: Shape, c: nat, sh': Shape)
    requires Domains(ram, sh) && Domains(ram, sh') && Down(ram, sh, {})
    requires c !in sh && ZeroPage(ram, c) && !V(0)
    requires sh' == sh[c := Node(2, c, 0, 0, 0)]
    ensures Down(ram, sh', {})
  {
    hide V;
    hide Ppn;
    hide IsLeaf;
    hide Word;
    hide NodeOk;
    forall p: nat, k: nat {:trigger Word(ram, p, k)} |
      p in sh' && sh'[p].level > 0 && k < 512 && V(Word(ram, p, k))
      ensures !IsLeaf(Word(ram, p, k)) && Below(sh', p, k, Ppn(Word(ram, p, k)))
    {
      assert p != c;
    }
  }

  lemma RootHung(ram: map<nat, Page>, sh: Shape, c: nat, sh': Shape)
    requires Domains(ram, sh) && Domains(ram, sh') && Hung(ram, sh) && c !in sh
    requires sh' == sh[c := Node(2, c, 0, 0, 0)]
    ensures Hung(ram, sh')
  {
    hide Child;
    hide NodeOk;
  }

  lemma RootTree(ram: map<nat, Page>, sh: Shape, c: nat, sh': Shape)
    requires Tree(ram, sh, {}) && c in ram && c !in sh && ZeroPage(ram, c) && !V(0)
    requires sh' == sh[c := Node(2, c, 0, 0, 0)]
    ensures Tree(ram, sh', {})
  {
    hide V;
    hide Down;
    hide Hung;
    hide ZeroPage;
    RootDown(ram, sh, c, sh');
    RootHung(ram, sh, c, sh');
  }

  lemma RootLeaves(ram: map<nat, Page>, sh: Shape, user: map<nat, Place>, c: nat, sh': Shape)
    requires Leaves(ram, sh, user) && c !in sh
    requires sh' == sh[c := Node(2, c, 0, 0, 0)]
    ensures Leaves(ram, sh', user)
  {
    hide V;
    hide Ppn;
    hide IsLeaf;
    hide Word;
  }

  lemma EmptyRoot(ram: map<nat, Page>, c: nat)
    requires ZeroPage(ram, c)
    ensures !V(0)
    ensures forall v: nat {:trigger Pte(ram, c, v)} | v < VPN_LIMIT :: Pte(ram, c, v) == 0
  {
    assert !V(0);
    hide V;
    hide Word;
  }

  /** A zeroed page becomes an empty page table. */
  lemma InvRoot(ram: map<nat, Page>, use: map<nat, Use>, pos: map<nat, nat>, head: nat,
                sh: Shape, user: map<nat, Place>, c: nat, sh': Shape)
    requires Inv(ram, use, pos, head, sh, user)
    requires c in use && c in ram && use[c] == Held && ZeroPage(ram, c)
    requires sh' == sh[c := Node(2, c, 0, 0, 0)]
    ensures Inv(ram, use[c := Table], pos, head, sh', user)
    ensures c !in sh && IsRoot(sh', c) && SameMaps(ram, sh, ram, sh')
    ensures forall v: nat {:trigger Pte(ram, c, v)} | v < VPN_LIMIT :: Pte(ram, c, v) == 0
  {
    hide V;
    hide Ppn;
    hide Tree;
    hide Leaves;
    hide Allocator;
    hide Pte;
    InvFacts(ram, use, pos, head, sh, user);
    hide RamOk;
    hide Domains;
    EmptyRoot(ram, c);
    Reuse(ram, use, pos, head, sh.Keys, user.Keys, c, Table, sh'.Keys, user.Keys);
    RootTree(ram, sh, c, sh');
    RootLeaves(ram, sh, user, c, sh');
  }

  /** A page in hand is mapped at an unmapped page number. */
  lemma InvMap(ram: map<nat, Page>, use: map<nat, Use>, pos: map<nat, nat>, head: nat,
               sh: Shape, user: map<nat, Place>, r: nat, v: nat, w: nat, t: nat,
               ram': map<nat, Page>, use': map<nat, Use>, user': map<nat, Place>)
    requires Inv(ram, use, pos, head, sh, user)
    requires IsRoot(sh, r) && v < VPN_LIMIT && t == LastTable(ram, r, v) != 0 && !V(Word(ram, t, v % 512))
    requires t in ram && |ram[t]| == 512 && ram' == Stored(ram, t, v % 512, w) && V(w) && IsLeaf(w)
    requires if v < TRAPFRAME_VPN
             then Ppn(w) in use && use[Ppn(w)] == Held && use' == use[Ppn(w) := User]
                  && user' == user[Ppn(w) := Place(t, v % 512)]
             else use' == use && user' == user
    ensures Inv(ram', use', pos, head, sh, user')
    ensures forall r': nat, v': nat {:trigger Pte(ram', r', v')} | IsRoot(sh, r') && v' < VPN_LIMIT ::
      Pte(ram', r', v') == if r' == r && v' == v then w else Pte(ram, r', v')
  {
    hide V;
    hide Ppn;
    hide IsLeaf;
    hide Allocator;
    hide Tree;
    hide Leaves;
    InvFacts(ram, use, pos, head, sh, user);
    StoredWords(ram, t, v % 512, w);
    Located(ram, sh, r, v);
    Change(ram, use, pos, head, sh.Keys, user.Keys, t, ram'[t]);
    if v < TRAPFRAME_VPN {
      Reuse(ram', use, pos, head, sh.Keys, user.Keys, Ppn(w), User, sh.Keys, user'.Keys);
    }
    SetEntryTree(ram, sh, t, v % 512, w, ram');
    LeavesMap(ram, sh, user, t, v % 512, w, ram', user');
    forall r': nat, v': nat {:trigger Pte(ram', r', v')} | IsRoot(sh, r') && v' < VPN_LIMIT
      ensures Pte(ram', r', v') == if r' == r && v' == v then w else Pte(ram, r', v')
    {
      SetEntry(ram, sh, r, v, w, t, ram', r', v');
    }
  }

  /** An entry is cleared after the page behind it was given up. */
  lemma InvUnmap(ram: map<nat, Page>, use: map<nat, Use>, pos: map<nat, nat>, head: nat,
                 sh: Shape, user: map<nat, Place>, r: nat, v: nat, t: nat,
                 ram1: map<nat, Page>, use1: map<nat, Use>, pos1: map<nat, nat>, head1: nat,
                 ram2: map<nat, Page>, user1: map<nat, Place>)
    requires Inv(ram, use, pos, head, sh, user)
    requires IsRoot(sh, r) && v < VPN_LIMIT && t == LastTable(ram, r, v) != 0 && V(Word(ram, t, v % 512))
    requires Allocator(ram1, use1, pos1, head1, sh.Keys, user1.Keys)
    requires ram1.Keys == ram.Keys && SameWords(ram, ram1, sh)
    requires t in ram1 && |ram1[t]| == 512 && ram2 == Stored(ram1, t, v % 512, 0)
    requires user1 == if v < TRAPFRAME_VPN then user - {Ppn(Word(ram, t, v % 512))} else user
    ensures Inv(ram2, use1, pos1, head1, sh, user1)
    ensures forall r': nat, v': nat {:trigger Pte(ram2, r', v')} | IsRoot(sh, r') && v' < VPN_LIMIT ::
      Pte(ram2, r', v') == if r' == r && v' == v then 0 else Pte(ram, r', v')
  {
    hide V;
    hide Ppn;
    hide Tree;
    hide Leaves;
    Pointer(0);
    Located(ram, sh, r, v);
    hide FreeList;
    assert RamOk(ram1) && t in use1 && use1[t] == Table;
    hide Uses;
    hide Allocator;
    StoredWords(ram1, t, v % 512, 0);
    Change(ram1, use1, pos1, head1, sh.Keys, user1.Keys, t, ram2[t]);
    TablesKept(ram, ram1, sh, user);
    SameTables(ram, ram1, sh, r, v);
    SetEntryTree(ram1, sh, t, v % 512, 0, ram2);
    LeavesUnmap(ram, sh, user, t, v % 512, ram2, user1);
    forall r': nat, v': nat {:trigger Pte(ram2, r', v')} | IsRoot(sh, r') && v' < VPN_LIMIT
      ensures Pte(ram2, r', v') == if r' == r && v' == v then 0 else Pte(ram, r', v')
    {
      SetEntry(ram1, sh, r, v, 0, t, ram2, r', v');
    }
  }

  /** Pages move from the free list to page tables and nowhere else. */
  ghost predicate Grown(use: map<nat, Use>, use': map<nat, Use>)
  {
    && use'.Keys == use.Keys
    && (forall p | p in use :: use'[p] == use[p] || (use[p] == Free && use'[p] == Table))
  }

  /** What walk may do: no translation, user page or page in hand changes. */
  ghost predicate Extended(ram: map<nat, Page>, use: map<nat, Use>, sh: Shape,
                           ram': map<nat, Page>, use': map<nat, Use>, sh': Shape)
  {
    SameMaps(ram, sh, ram', sh') && SameData(ram, use, ram') && Grown(use, use')
  }

  lemma ExtendedTrans(ram: map<nat, Page>, use: map<nat, Use>, sh: Shape,
                      ram1: map<nat, Page>, use1: map<nat, Use>, sh1: Shape,
                      ram2: map<nat, Page>, use2: map<nat, Use>, sh2: Shape)
    requires Extended(ram, use, sh, ram1, use1, sh1) && Extended(ram1, use1, sh1, ram2, use2, sh2)
    ensures Extended(ram, use, sh, ram2, use2, sh2)
  {
    hide Pte;
    hide IsRoot;
    forall p {:trigger ram2[p]} | p in use && (use[p] == User || use[p] == Held)
      ensures ram2[p] == ram[p]
    {
      assert use1[p] == use[p] && ram1[p] == ram[p];
    }
  }

  lemma ExtendedRefl(ram: map<nat, Page>, use: map<nat, Use>, sh: Shape)
    requires ram.Keys == use.Keys
    ensures Extended(ram, use, sh, ram, use, sh)
  {
  }

  lemma InvAllocator(ram: map<nat, Page>, use: map<nat, Use>, pos: map<nat, nat>, head: nat,
                     sh: Shape, user: map<nat, Place>)
    requires Inv(ram, use, pos, head, sh, user)
    ensures Allocator(ram, use, pos, head, sh.Keys, user.Keys)
  {
  }

  /** A page leaves the free list: only its own contents change. */
  ghost predicate Took(ram: map<nat, Page>, use: map<nat, Use>, sh: Shape, ram': map<nat, Page>, use': map<nat, Use>,
                       c: nat)
  {
    && c in use && use[c] == Free && c !in sh && c != 0
    && use' == use[c := Held]
    && SameMaps(ram, sh, ram', sh)
    && ram'.Keys == ram.Keys == use.Keys
    && (forall p {:trigger ram'[p]} | p in ram && p != c :: ram'[p] == ram[p])
  }

  lemma TookPage(ram: map<nat, Page>, use: map<nat, Use>, pos: map<nat, nat>, head: nat, sh: Shape,
                 user: map<nat, Place>, c: nat, page: Page, ram': map<nat, Page>)
    requires Inv(ram, use, pos, head, sh, user)
    requires c in use && c in ram && use[c] == Free && |page| == 512 && ram' == ram[c := page]
    ensures Took(ram, use, sh, ram', use[c := Held], c)
  {
    hide Pte;
    InvFacts(ram, use, pos, head, sh, user);
    assert SameMaps(ram, sh, ram', sh) by {
      PageWords(ram, c, page);
      hide Tree;
      hide Leaves;
      hide Allocator;
      TablesKept(ram, ram', sh, user);
    }
    hide Inv;
  }

  /** kalloc and memset, then the store into the parent, seen together. */
  lemma TookTable(ram: map<nat, Page>, use: map<nat, Use>, sh: Shape, c: nat, ram1: map<nat, Page>, use1: map<nat, Use>,
                  p: nat, k: nat, ram2: map<nat, Page>, sh2: Shape)
    requires RamOk(ram1) && Took(ram, use, sh, ram1, use1, c)
    requires p in sh && p in use && use[p] == Table && sh[p].level > 0 && k < 512
    requires p in ram1 && ram2 == Stored(ram1, p, k, 1024 * c + 1) && sh2 == Hang(sh, p, k, c)
    requires SameMaps(ram1, sh, ram2, sh2)
    ensures Extended(ram, use, sh, ram2, use1[c := Table], sh2)
  {
    hide Pte;
    StoredWords(ram1, p, k, 1024 * c + 1);
    hide Stored;
    hide Word;
  }

  lemma TookWord(ram: map<nat, Page>, use: map<nat, Use>, sh: Shape, c: nat, ram1: map<nat, Page>, use1: map<nat, Use>)
    requires Domains(ram, sh) && Took(ram, use, sh, ram1, use1, c)
    ensures forall q: nat, j: nat {:trigger Word(ram1, q, j)} | q in sh :: Word(ram1, q, j) == Word(ram, q, j)
  {
  }

  /** PX(level, va) for the virtual page number v. */
  function PX(level: nat, v: nat): (k: nat)
    ensures k < 512
  {
    if level == 2 then v / 262144 % 512 else if level == 1 then v / 512 % 512 else v % 512
  }

  /** Table p is the one that a walk from r for page v has reached at this level. */
  ghost predicate Reached(ram: map<nat, Page>, sh: Shape, r: nat, v: nat, level: nat, p: nat)
  {
    && p in sh && sh[p].level == level && p != 0
    && (if level == 2 then p == r
        else if level == 1 then p == Child(ram, r, PX(2, v))
        else Child(ram, r, PX(2, v)) != 0 && p == Child(ram, Child(ram, r, PX(2, v)), PX(1, v)))
  }

  lemma ReachedLast(ram: map<nat, Page>, sh: Shape, r: nat, v: nat, level: nat, p: nat)
    requires Reached(ram, sh, r, v, level, p) && v < VPN_LIMIT && level <= 2
    ensures level == 0 ==> p == LastTable(ram, r, v)
    ensures level > 0 && !V(Word(ram, p, PX(level, v))) ==> LastTable(ram, r, v) == 0
  {
    hide V;
    hide Ppn;
    hide Word;
    assert PX(2, v) == v / 262144;
  }

  lemma ReachedDown(ram: map<nat, Page>, sh: Shape, r: nat, v: nat, level: nat, p: nat)
    requires Tree(ram, sh, {}) && Reached(ram, sh, r, v, level, p) && 0 < level <= 2 && V(Word(ram, p, PX(level, v)))
    ensures Reached(ram, sh, r, v, level - 1, Ppn(Word(ram, p, PX(level, v))))
  {
    hide V;
    hide Ppn;
    hide IsLeaf;
    hide Hung;
    var k := PX(level, v);
    hide PX;
    assert Below(sh, p, k, Ppn(Word(ram, p, k)));
    hide Word;
    assert Child(ram, p, k) == Ppn(Word(ram, p, k));
  }

  lemma ReachedNew(ram: map<nat, Page>, sh: Shape, r: nat, v: nat, level: nat, p: nat, c: nat,
                   ram': map<nat, Page>, sh': Shape)
    requires IsRoot(sh, r) && Reached(ram, sh, r, v, level, p) && 0 < level <= 2
    requires c !in sh && sh' == Hang(sh, p, PX(level, v), c) && Child(ram', p, PX(level, v)) == c && c != 0
    requires forall q: nat, j: nat {:trigger Child(ram', q, j)} | q in sh && (q != p || j != PX(level, v)) ::
               Child(ram', q, j) == Child(ram, q, j)
    ensures Reached(ram', sh', r, v, level - 1, c) && IsRoot(sh', r)
  {
    hide PX;
    hide Child;
  }

  lemma ReachedIn(ram: map<nat, Page>, sh: Shape, r: nat, v: nat, level: nat, p: nat)
    requires Reached(ram, sh, r, v, level, p)
    ensures p in sh && sh[p].level == level && p != 0
  {
  }

  lemma RootReached(ram: map<nat, Page>, sh: Shape, r: nat, v: nat)
    requires RamOk(ram) && Domains(ram, sh) && IsRoot(sh, r)
    ensures Reached(ram, sh, r, v, 2, r)
  {
  }

  lemma InvTree(ram: map<nat, Page>, use: map<nat, Use>, pos: map<nat, nat>, head: nat,
                sh: Shape, user: map<nat, Place>)
    requires Inv(ram, use, pos, head, sh, user)
    ensures Tree(ram, sh, {}) && Leaves(ram, sh, user)
  {
  }

  ghost predicate IsHeld(use: map<nat, Use>, p: nat)
  {
    p in use && use[p] == Held
  }

  /** What mapping n pages, c on, at page v of address space r does: those translations change and no others. */
  ghost predicate Mapped(ram: map<nat, Page>, use: map<nat, Use>, sh: Shape,
                         ram': map<nat, Page>, use': map<nat, Use>, sh': Shape,
                         r: nat, v: nat, n: nat, c: nat, perm: nat)
  {
    && (forall q | IsRoot(sh, q) :: IsRoot(sh', q))
    && (forall q: nat, u: nat {:trigger Pte(ram', q, u)} | IsRoot(sh, q) && u < VPN_LIMIT ::
          Pte(ram', q, u) == if q == r && v <= u < v + n then Entry(c + u - v, perm) else Pte(ram, q, u))
    && SameData(ram, use, ram')
    && use'.Keys == use.Keys
    && (forall p {:trigger use'[p]} | p in use ::
          use'[p] == if c <= p < c + n && v + (p - c) < TRAPFRAME_VPN then User
                     else if use[p] == Free && use'[p] == Table then Table else use[p])
    && (forall p: nat {:trigger IsHeld(use, p)} | c <= p < c + n && v + (p - c) < TRAPFRAME_VPN :: IsHeld(use, p))
  }

  lemma MappedNone(ram: map<nat, Page>, use: map<nat, Use>, sh: Shape, ram': map<nat, Page>, use': map<nat, Use>,
                   sh': Shape, r: nat, v: nat, c: nat, perm: nat)
    requires Extended(ram, use, sh, ram', use', sh')
    ensures Mapped(ram, use, sh, ram', use', sh', r, v, 0, c, perm)
    ensures IsRoot(sh, r) ==> IsRoot(sh', r)
    ensures IsRoot(sh, r) && v < VPN_LIMIT ==> Pte(ram', r, v) == Pte(ram, r, v)
  {
    hide Pte;
    hide Entry;
  }

  lemma GrownHeld(ram: map<nat, Page>, use: map<nat, Use>, sh: Shape, ram': map<nat, Page>, use': map<nat, Use>,
                  sh': Shape, c: nat)
    requires Extended(ram, use, sh, ram', use', sh') && c in use && use[c] == Held
    ensures c in use' && use'[c] == Held && c in ram'
  {
  }

  lemma PteAt(ram: map<nat, Page>, r: nat, v: nat)
    ensures var t := LastTable(ram, r, v);
      t != 0 ==> Pte(ram, r, v) == (if V(Word(ram, t, v % 512)) then Word(ram, t, v % 512) else 0)
    ensures Pte(ram, r, v) != 0 <==> LastTable(ram, r, v) != 0 && V(Word(ram, LastTable(ram, r, v), v % 512))
  {
  }

  lemma NoTable(ram: map<nat, Page>, r: nat, v: nat)
    requires LastTable(ram, r, v) == 0
    ensures Pte(ram, r, v) == 0
  {
  }

  lemma MappedOne(ram: map<nat, Page>, use: map<nat, Use>, sh: Shape, ram1: map<nat, Page>, use1: map<nat, Use>,
                  sh1: Shape, r: nat, v: nat, c: nat, perm: nat, t: nat, ram2: map<nat, Page>, use2: map<nat, Use>)
    requires Extended(ram, use, sh, ram1, use1, sh1)
    requires v < VPN_LIMIT && t in use1 && use1[t] == Table && t in ram1 && RamOk(ram1)
    requires ram2 == Stored(ram1, t, v % 512, Entry(c, perm))
    requires forall q: nat, u: nat {:trigger Pte(ram2, q, u)} | IsRoot(sh1, q) && u < VPN_LIMIT ::
      Pte(ram2, q, u) == if q == r && u == v then Entry(c, perm) else Pte(ram1, q, u)
    requires v < TRAPFRAME_VPN ==> c in use && use[c] == Held
    requires use2 == if v < TRAPFRAME_VPN then use1[c := User] else use1
    ensures Mapped(ram, use, sh, ram2, use2, sh1, r, v, 1, c, perm)
  {
    hide Pte;
    hide Entry;
    hide IsRoot;
    StoredWords(ram1, t, v % 512, Entry(c, perm));
    hide Stored;
    hide Word;
    forall p {:trigger ram2[p]} | p in use && (use[p] == User || use[p] == Held)
      ensures ram2[p] == ram[p]
    {
      assert use1[p] == use[p] && ram1[p] == ram[p];
    }
  }

  lemma MappedNext(ram: map<nat, Page>, use: map<nat, Use>, sh: Shape, ram1: map<nat, Page>, use1: map<nat, Use>,
                   sh1: Shape, r: nat, v: nat, n: nat, c: nat, perm: nat, m: nat,
                   ram2: map<nat, Page>, use2: map<nat, Use>, sh2: Shape)
    requires Mapped(ram, use, sh, ram1, use1, sh1, r, v, n, c, perm)
    requires Mapped(ram1, use1, sh1, ram2, use2, sh2, r, v + n, m, c + n, perm)
    ensures Mapped(ram, use, sh, ram2, use2, sh2, r, v, n + m, c, perm)
  {
    hide Pte;
    hide Entry;
    hide IsRoot;
    forall p {:trigger ram2[p]} | p in use && (use[p] == User || use[p] == Held)
      ensures ram2[p] == ram[p]
    {
      assert use1[p] == User || use1[p] == Held;
      assert ram1[p] == ram[p];
    }
    forall p: nat {:trigger IsHeld(use, p)} | c <= p < c + n + m && v + (p - c) < TRAPFRAME_VPN
      ensures IsHeld(use, p)
    {
      if c + n <= p {
        assert IsHeld(use1, p);
      }
    }
    forall p {:trigger use2[p]} | p in use
      ensures use2[p] == if c <= p < c + n + m && v + (p - c) < TRAPFRAME_VPN then User
                         else if use[p] == Free && use2[p] == Table then Table else use[p]
    {
      assert use1[p] == User || use1[p] == use[p] || use[p] == Free;
      assert c + n <= p < c + n + m && v + (p - c) < TRAPFRAME_VPN ==> IsHeld(use1, p);
    }
  }

  /** The last step of mappages: the entry is stored in the slot that walk returned. */
  lemma MapStep(ram: map<nat, Page>, use: map<nat, Use>, sh: Shape, ram1: map<nat, Page>, use1: map<nat, Use>,
                pos: map<nat, nat>, head: nat, sh1: Shape, user1: map<nat, Place>,
                r: nat, v: nat, c: nat, perm: nat, t: nat,
                ram2: map<nat, Page>, use2: map<nat, Use>, user2: map<nat, Place>)
    requires Extended(ram, use, sh, ram1, use1, sh1) && Inv(ram1, use1, pos, head, sh1, user1)
    requires IsRoot(sh1, r) && v < VPN_LIMIT && t == LastTable(ram1, r, v) != 0 && Pte(ram1, r, v) == 0
    requires perm < 1024 && IsLeaf(perm)
    requires v < TRAPFRAME_VPN ==> c in use && use[c] == Held
    requires t in ram1 && |ram1[t]| == 512 && ram2 == Stored(ram1, t, v % 512, Entry(c, perm))
    requires use2 == if v < TRAPFRAME_VPN then use1[c := User] else use1
    requires user2 == if v < TRAPFRAME_VPN then user1[c := Place(t, v % 512)] else user1
    ensures Inv(ram2, use2, pos, head, sh1, user2)
    ensures Mapped(ram, use, sh, ram2, use2, sh1, r, v, 1, c, perm)
  {
    hide V;
    hide Ppn;
    hide IsLeaf;
    hide Inv;
    hide Extended;
    hide Mapped;
    hide Stored;
    PteAt(ram1, r, v);
    InvTree(ram1, use1, pos, head, sh1, user1);
    Located(ram1, sh1, r, v);
    InvFacts(ram1, use1, pos, head, sh1, user1);
    hide Tree;
    hide Leaves;
    hide Pte;
    hide LastTable;
    hide RamOk;
    hide Domains;
    EntryFields(c, perm);
    if v < TRAPFRAME_VPN {
      GrownHeld(ram, use, sh, ram1, use1, sh1, c);
    }
    InvMap(ram1, use1, pos, head, sh1, user1, r, v, Entry(c, perm), t, ram2, use2, user2);
    MappedOne(ram, use, sh, ram1, use1, sh1, r, v, c, perm, t, ram2, use2);
  }

  lemma SlotFacts(ram: map<nat, Page>, use: map<nat, Use>, pos: map<nat, nat>, head: nat, sh: Shape,
                  user: map<nat, Place>, r: nat, v: nat)
    requires Inv(ram, use, pos, head, sh, user) && IsRoot(sh, r) && v < VPN_LIMIT && LastTable(ram, r, v) != 0
    ensures LastTable(ram, r, v) in ram && |ram[LastTable(ram, r, v)]| == 512
    ensures var w := Word(ram, LastTable(ram, r, v), v % 512); Pte(ram, r, v) == if V(w) then w else 0
    ensures V(Word(ram, LastTable(ram, r, v), v % 512)) <==> Pte(ram, r, v) != 0
  {
    hide V;
    hide Ppn;
    InvTree(ram, use, pos, head, sh, user);
    Located(ram, sh, r, v);
    InvFacts(ram, use, pos, head, sh, user);
    hide Inv;
    PteAt(ram, r, v);
  }

  /** Part way through mappages the next page is still in hand and its slot as before. */
  lemma MappedRest(ram: map<nat, Page>, use: map<nat, Use>, sh: Shape, ram1: map<nat, Page>, use1: map<nat, Use>,
                   sh1: Shape, r: nat, v: nat, n: nat, c: nat, perm: nat, total: nat)
    requires Mapped(ram, use, sh, ram1, use1, sh1, r, v, n, c, perm) && IsRoot(sh, r) && n < total
    requires forall p: nat {:trigger IsHeld(use, p)} | c <= p < c + total && v + (p - c) < TRAPFRAME_VPN ::
      IsHeld(use, p)
    ensures v + n < TRAPFRAME_VPN ==> IsHeld(use1, c + n)
    ensures v + n < VPN_LIMIT ==> Pte(ram1, r, v + n) == Pte(ram, r, v + n)
  {
    hide Pte;
    hide Entry;
    if v + n < TRAPFRAME_VPN {
      assert IsHeld(use, c + n);
      assert c + n in use1 && use1[c + n] == Held;
    }
  }

  /** User page u is mapped in address space r at one of the n pages from v on. */
  ghost predicate InRange(sh: Shape, user: map<nat, Place>, u: nat, r: nat, v: nat, n: nat)
  {
    && u in user && user[u].table in sh && sh[user[u].table].root == r
    && v <= VpnOf(sh, user[u].table, user[u].slot) < v + n
  }

  /** Every last-level table is where a walk from its root finds it. */
  lemma Found(ram: map<nat, Page>, sh: Shape, t: nat, k: nat)
    requires Tree(ram, sh, {}) && InTable(sh, t, k)
    ensures IsRoot(sh, sh[t].root) && LastTable(ram, sh[t].root, VpnOf(sh, t, k)) == t && VpnOf(sh, t, k) % 512 == k
    ensures t != 0
  {
    hide V;
    hide Ppn;
    hide IsLeaf;
    var p := sh[t].parent;
    var q := sh[p].parent;
    assert Below(sh, p, sh[t].slot, t) by {
      assert Child(ram, p, sh[t].slot) == t;
    }
    assert Below(sh, q, sh[p].slot, p) by {
      assert Child(ram, q, sh[p].slot) == p;
    }
    hide Tree;
    hide Child;
    assert VpnOf(sh, t, k) == 262144 * sh[p].slot + 512 * sh[t].slot + k;
  }

  lemma UserFound(ram: map<nat, Page>, sh: Shape, user: map<nat, Place>, r: nat, v: nat, u: nat)
    requires Tree(ram, sh, {}) && Leaves(ram, sh, user) && InRange(sh, user, u, r, v, 1) && 0 !in user
    ensures Pte(ram, r, v) != 0 && u == Ppn(Pte(ram, r, v)) && v < TRAPFRAME_VPN
  {
    hide V;
    hide Ppn;
    hide IsLeaf;
    hide Tree;
    Found(ram, sh, user[u].table, user[u].slot);
    Pointer(0);
    assert Child(ram, user[u].table, user[u].slot) == u != 0;
    hide LastTable;
    hide VpnOf;
  }

  lemma LeafFound(ram: map<nat, Page>, sh: Shape, user: map<nat, Place>, r: nat, v: nat)
    requires Tree(ram, sh, {}) && Leaves(ram, sh, user) && IsRoot(sh, r) && v < VPN_LIMIT && Pte(ram, r, v) != 0
    ensures IsLeaf(Pte(ram, r, v)) && V(Pte(ram, r, v))
    ensures v < TRAPFRAME_VPN ==> InRange(sh, user, Ppn(Pte(ram, r, v)), r, v, 1)
  {
    hide V;
    hide Ppn;
    hide IsLeaf;
    hide Tree;
    Located(ram, sh, r, v);
  }

  /** What unmapping n pages from page v of address space r does; the pages behind them are put to the use given. */
  ghost predicate Unmapped(ram: map<nat, Page>, use: map<nat, Use>, sh: Shape, user: map<nat, Place>,
                           ram': map<nat, Page>, use': map<nat, Use>, user': map<nat, Place>,
                           r: nat, v: nat, n: nat, to: Use)
  {
    && (forall q: nat, u: nat {:trigger Pte(ram', q, u)} | IsRoot(sh, q) && u < VPN_LIMIT ::
          Pte(ram', q, u) == if q == r && v <= u < v + n then 0 else Pte(ram, q, u))
    && use'.Keys == use.Keys == ram.Keys == ram'.Keys
    && (forall p {:trigger use'[p]} | p in use :: use'[p] == if InRange(sh, user, p, r, v, n) then to else use[p])
    && (forall u {:trigger u in user'} :: u in user' <==> u in user && !InRange(sh, user, u, r, v, n))
    && (forall u {:trigger user'[u]} | u in user' :: user'[u] == user[u])
    && (forall p {:trigger ram'[p]} | p in use && (use[p] == User || use[p] == Held) ::
          (InRange(sh, user, p, r, v, n) && to == Free) || ram'[p] == ram[p])
  }

  lemma UnmappedHole(ram: map<nat, Page>, use: map<nat, Use>, pos: map<nat, nat>, head: nat, sh: Shape,
                     user: map<nat, Place>, r: nat, v: nat, to: Use)
    requires Inv(ram, use, pos, head, sh, user) && IsRoot(sh, r) && v < VPN_LIMIT && Pte(ram, r, v) == 0
    ensures Unmapped(ram, use, sh, user, ram, use, user, r, v, 1, to)
  {
    hide Pte;
    hide Inv;
    hide InRange;
    InvFacts(ram, use, pos, head, sh, user);
    NobodyThere(ram, use, pos, head, sh, user, r, v);
  }

  lemma NobodyThere(ram: map<nat, Page>, use: map<nat, Use>, pos: map<nat, nat>, head: nat, sh: Shape,
                    user: map<nat, Place>, r: nat, v: nat)
    requires Inv(ram, use, pos, head, sh, user) && Pte(ram, r, v) == 0
    ensures forall u: nat :: !InRange(sh, user, u, r, v, 1)
  {
    hide Pte;
    hide Inv;
    InvFacts(ram, use, pos, head, sh, user);
    InvTree(ram, use, pos, head, sh, user);
    hide Tree;
    hide Leaves;
    hide InRange;
    forall u: nat
      ensures !InRange(sh, user, u, r, v, 1)
    {
      if InRange(sh, user, u, r, v, 1) {
        UserFound(ram, sh, user, r, v, u);
      }
    }
  }

  lemma UnmappedNone(ram: map<nat, Page>, use: map<nat, Use>, sh: Shape, user: map<nat, Place>, r: nat, v: nat, to: Use)
    requires use.Keys == ram.Keys
    ensures Unmapped(ram, use, sh, user, ram, use, user, r, v, 0, to)
  {
    hide Pte;
  }

  lemma RangeSplit(sh: Shape, user: map<nat, Place>, user1: map<nat, Place>, r: nat, v: nat, n: nat, m: nat)
    requires forall u {:trigger u in user1} :: u in user1 <==> u in user && !InRange(sh, user, u, r, v, n)
    requires forall u {:trigger user1[u]} | u in user1 :: user1[u] == user[u]
    ensures forall u {:trigger InRange(sh, user, u, r, v, n + m)} ::
      InRange(sh, user, u, r, v, n + m) <==> InRange(sh, user, u, r, v, n) || InRange(sh, user1, u, r, v + n, m)
  {
    hide VpnOf;
    forall u {:trigger InRange(sh, user, u, r, v, n + m)}
      ensures InRange(sh, user, u, r, v, n + m) <==> InRange(sh, user, u, r, v, n) || InRange(sh, user1, u, r, v + n, m)
    {
      assert u in user1 <==> u in user && !InRange(sh, user, u, r, v, n);
    }
  }

  lemma UnmappedNext(ram: map<nat, Page>, use: map<nat, Use>, sh: Shape, user: map<nat, Place>,
                     ram1: map<nat, Page>, use1: map<nat, Use>, user1: map<nat, Place>,
                     ram2: map<nat, Page>, use2: map<nat, Use>, user2: map<nat, Place>,
                     r: nat, v: nat, n: nat, m: nat, to: Use)
    requires Unmapped(ram, use, sh, user, ram1, use1, user1, r, v, n, to)
    requires Unmapped(ram1, use1, sh, user1, ram2, use2, user2, r, v + n, m, to)
    requires to == Free || to == Held
    ensures Unmapped(ram, use, sh, user, ram2, use2, user2, r, v, n + m, to)
  {
    hide Pte;
    hide IsRoot;
    hide InRange;
    RangeSplit(sh, user, user1, r, v, n, m);
    forall p {:trigger ram2[p]} | p in use && (use[p] == User || use[p] == Held)
      ensures (InRange(sh, user, p, r, v, n + m) && to == Free) || ram2[p] == ram[p]
    {
      assert use1[p] == if InRange(sh, user, p, r, v, n) then to else use[p];
      assert (InRange(sh, user, p, r, v, n) && to == Free) || ram1[p] == ram[p];
    }
    forall p {:trigger use2[p]} | p in use
      ensures use2[p] == if InRange(sh, user, p, r, v, n + m) then to else use[p]
    {
      assert use1[p] == if InRange(sh, user, p, r, v, n) then to else use[p];
    }
  }

  lemma OnlyThere(ram: map<nat, Page>, use: map<nat, Use>, pos: map<nat, nat>, head: nat, sh: Shape,
                  user: map<nat, Place>, r: nat, v: nat)
    requires Inv(ram, use, pos, head, sh, user) && IsRoot(sh, r) && v < VPN_LIMIT && Pte(ram, r, v) != 0
    ensures forall u: nat :: InRange(sh, user, u, r, v, 1) <==> u == Ppn(Pte(ram, r, v)) && v < TRAPFRAME_VPN
    ensures IsLeaf(Pte(ram, r, v)) && V(Pte(ram, r, v))
    ensures v < TRAPFRAME_VPN ==> Ppn(Pte(ram, r, v)) in use && use[Ppn(Pte(ram, r, v))] == User
  {
    hide Pte;
    hide Inv;
    hide Ppn;
    hide V;
    hide IsLeaf;
    InvFacts(ram, use, pos, head, sh, user);
    InvTree(ram, use, pos, head, sh, user);
    hide Tree;
    hide Leaves;
    LeafFound(ram, sh, user, r, v);
    assert v < TRAPFRAME_VPN ==> Ppn(Pte(ram, r, v)) in user;
    hide InRange;
    forall u: nat
      ensures InRange(sh, user, u, r, v, 1) ==> u == Ppn(Pte(ram, r, v)) && v < TRAPFRAME_VPN
    {
      if InRange(sh, user, u, r, v, 1) {
        UserFound(ram, sh, user, r, v, u);
      }
    }
  }

  /** The page behind an entry is given up before the entry is cleared. */
  lemma Released(ram: map<nat, Page>, use: map<nat, Use>, pos: map<nat, nat>, head: nat, sh: Shape,
                 user: map<nat, Place>, c: nat)
    requires Inv(ram, use, pos, head, sh, user) && c in use && use[c] == User
    ensures Allocator(ram, use[c := Held], pos, head, sh.Keys, (user - {c}).Keys)
  {
    hide Inv;
    hide Allocator;
    InvAllocator(ram, use, pos, head, sh, user);
    InvFacts(ram, use, pos, head, sh, user);
    hide RamOk;
    hide Domains;
    assert sh.Keys - {c} == sh.Keys;
    assert (user - {c}).Keys == user.Keys - {c};
    Reuse(ram, use, pos, head, sh.Keys, user.Keys, c, Held, sh.Keys, (user - {c}).Keys);
  }

  /** One round of uvmunmap. */
  lemma UnmapStep(ram: map<nat, Page>, use: map<nat, Use>, pos: map<nat, nat>, head: nat, sh: Shape,
                  user: map<nat, Place>, r: nat, v: nat, t: nat, c: nat, to: Use,
                  ram1: map<nat, Page>, use1: map<nat, Use>, pos1: map<nat, nat>, head1: nat,
                  user1: map<nat, Place>, ram2: map<nat, Page>)
    requires Inv(ram, use, pos, head, sh, user) && IsRoot(sh, r) && v < VPN_LIMIT
    requires t == LastTable(ram, r, v) != 0 && Pte(ram, r, v) != 0 && c == Ppn(Pte(ram, r, v))
    requires Allocator(ram1, use1, pos1, head1, sh.Keys, user1.Keys)
    requires ram1.Keys == ram.Keys && forall p {:trigger ram1[p]} | p in ram && (p != c || to != Free) ::
      ram1[p] == ram[p]
    requires to == Free ==> v < TRAPFRAME_VPN
    requires use1.Keys == use.Keys
    requires forall p {:trigger use1[p]} | p in use :: use1[p] == if v < TRAPFRAME_VPN && p == c then to else use[p]
    requires user1 == if v < TRAPFRAME_VPN then user - {c} else user
    requires t in ram1 && |ram1[t]| == 512 && ram2 == Stored(ram1, t, v % 512, 0)
    ensures Inv(ram2, use1, pos1, head1, sh, user1)
    ensures Unmapped(ram, use, sh, user, ram2, use1, user1, r, v, 1, to)
  {
    hide Ppn;
    hide V;
    hide IsLeaf;
    hide Inv;
    hide Allocator;
    hide InRange;
    hide Pte;
    InvFacts(ram, use, pos, head, sh, user);
    OnlyThere(ram, use, pos, head, sh, user, r, v);
    SlotFacts(ram, use, pos, head, sh, user, r, v);
    assert SameWords(ram, ram1, sh);
    InvUnmap(ram, use, pos, head, sh, user, r, v, t, ram1, use1, pos1, head1, ram2, user1);
    TableUse(ram, use, pos, head, sh, user, r, v);
    hide LastTable;
    hide Word;
  }

  lemma TableUse(ram: map<nat, Page>, use: map<nat, Use>, pos: map<nat, nat>, head: nat, sh: Shape,
                 user: map<nat, Place>, r: nat, v: nat)
    requires Inv(ram, use, pos, head, sh, user) && IsRoot(sh, r) && v < VPN_LIMIT && LastTable(ram, r, v) != 0
    ensures LastTable(ram, r, v) in use && use[LastTable(ram, r, v)] == Table
  {
    InvTree(ram, use, pos, head, sh, user);
    InvFacts(ram, use, pos, head, sh, user);
    hide Inv;
    Located(ram, sh, r, v);
  }

  /** What new pages are to hold: zeros, or a copy of those of another address space. */
  datatype Want = Zeros(perm: nat) | CopyOf(from: nat, memory: map<nat, Page>)

  function WantPerm(want: Want, u: nat): (perm: nat)
    ensures want.CopyOf? ==> perm < 1024
  {
    match want
    case Zeros(perm) => perm
    case CopyOf(from, memory) => Pte(memory, from, u) % 1024
  }

  ghost predicate WantPage(want: Want, u: nat, page: Page)
  {
    match want
    case Zeros(_) => page == Filled(0)
    case CopyOf(from, memory) =>
      Ppn(Pte(memory, from, u)) in memory && page == memory[Ppn(Pte(memory, from, u))]
  }

  /** Page u of address space r is mapped, with the flags wanted, to a page of the contents wanted that was free
      before. */
  ghost predicate NewPage(use: map<nat, Use>, ram': map<nat, Page>, use': map<nat, Use>, r: nat, u: nat, want: Want)
  {
    var c := Ppn(Pte(ram', r, u));
    && Pte(ram', r, u) == Entry(c, WantPerm(want, u))
    && c in use && use[c] == Free && c in use' && use'[c] == User
    && c in ram' && WantPage(want, u, ram'[c])
  }

  /** Page c is the one behind one of the n pages from v on. */
  ghost predicate Behind(ram: map<nat, Page>, r: nat, v: nat, n: nat, c: nat)
  {
    exists u: nat {:trigger Pte(ram, r, u)} :: v <= u < v + n && Pte(ram, r, u) != 0 && Ppn(Pte(ram, r, u)) == c
  }

  /** What mapping n new pages at page v of address space r does. */
  ghost predicate Grew(ram: map<nat, Page>, use: map<nat, Use>, sh: Shape,
                       ram': map<nat, Page>, use': map<nat, Use>, sh': Shape, r: nat, v: nat, n: nat, want: Want)
  {
    && (forall q | IsRoot(sh, q) :: IsRoot(sh', q))
    && (forall q: nat, u: nat {:trigger Pte(ram', q, u)} | IsRoot(sh, q) && u < VPN_LIMIT ::
          Pte(ram', q, u) == Pte(ram, q, u) || (q == r && v <= u < v + n))
    && (forall u: nat {:trigger NewPage(use, ram', use', r, u, want)} | v <= u < v + n ::
          NewPage(use, ram', use', r, u, want))
    && SameData(ram, use, ram')
    && use'.Keys == use.Keys
    && (forall p {:trigger use'[p]} | p in use :: use'[p] == use[p] ||
          (use[p] == Free && (use'[p] == Table || (use'[p] == User && Behind(ram', r, v, n, p)))))
  }

  lemma GrewNone(ram: map<nat, Page>, use: map<nat, Use>, sh: Shape, ram': map<nat, Page>, use': map<nat, Use>,
                 sh': Shape, r: nat, v: nat, want: Want)
    requires Extended(ram, use, sh, ram', use', sh')
    ensures Grew(ram, use, sh, ram', use', sh', r, v, 0, want)
  {
    hide Pte;
    hide Behind;
    hide NewPage;
  }

  lemma GrewZero(ram: map<nat, Page>, use: map<nat, Use>, sh: Shape, c: nat, ram1: map<nat, Page>, use1: map<nat, Use>,
                 ram2: map<nat, Page>, use2: map<nat, Use>, sh2: Shape, r: nat, v: nat, perm: nat, want: Want)
    requires Took(ram, use, sh, ram1, use1, c) && c in ram1 && WantPage(want, v, ram1[c]) && perm == WantPerm(want, v)
    requires Mapped(ram1, use1, sh, ram2, use2, sh2, r, v, 1, c, perm)
    requires IsRoot(sh, r) && v < TRAPFRAME_VPN && perm < 1024
    ensures NewPage(use, ram2, use2, r, v, want) && Behind(ram2, r, v, 1, c) && use2[c] == User
  {
    hide Pte;
    hide Ppn;
    hide Entry;
    hide IsRoot;
    hide WantPage;
    hide WantPerm;
    EntryFields(c, perm);
    assert Pte(ram2, r, v) == Entry(c + v - v, perm);
    assert use1[c] == Held && use2[c] == User && ram2[c] == ram1[c];
    assert Entry(c, perm) != 0 by { assert V(Entry(c, perm)) && !V(0); }
  }

  /** kalloc, memset and mappages of that one page. */
  lemma GrewOne(ram: map<nat, Page>, use: map<nat, Use>, sh: Shape, c: nat, ram1: map<nat, Page>, use1: map<nat, Use>,
                ram2: map<nat, Page>, use2: map<nat, Use>, sh2: Shape, r: nat, v: nat, perm: nat, want: Want)
    requires Took(ram, use, sh, ram1, use1, c) && c in ram1 && WantPage(want, v, ram1[c]) && perm == WantPerm(want, v)
    requires Mapped(ram1, use1, sh, ram2, use2, sh2, r, v, 1, c, perm)
    requires IsRoot(sh, r) && v < TRAPFRAME_VPN && perm < 1024
    ensures Grew(ram, use, sh, ram2, use2, sh2, r, v, 1, want)
  {
    hide Pte;
    hide Entry;
    hide IsRoot;
    hide NewPage;
    hide Behind;
    hide WantPage;
    GrewZero(ram, use, sh, c, ram1, use1, ram2, use2, sh2, r, v, perm, want);
    forall p {:trigger ram2[p]} | p in use && (use[p] == User || use[p] == Held)
      ensures ram2[p] == ram[p]
    {
      assert use1[p] == use[p] && ram1[p] == ram[p];
    }
    forall p {:trigger use2[p]} | p in use
      ensures use2[p] == use[p] || (use[p] == Free && (use2[p] == Table || (use2[p] == User && Behind(ram2, r, v, 1, p))))
    {
      assert p == c || use1[p] == use[p];
    }
  }

  lemma BehindMore(ram1: map<nat, Page>, ram2: map<nat, Page>, r: nat, v: nat, n: nat, v': nat, n': nat, c: nat)
    requires Behind(ram1, r, v, n, c) && v' <= v && v + n <= v' + n'
    requires forall u: nat {:trigger Pte(ram2, r, u)} | v <= u < v + n :: Pte(ram2, r, u) == Pte(ram1, r, u)
    ensures Behind(ram2, r, v', n', c)
  {
    hide Pte;
    hide Ppn;
    var u: nat :| v <= u < v + n && Pte(ram1, r, u) != 0 && Ppn(Pte(ram1, r, u)) == c;
    assert Pte(ram2, r, u) == Pte(ram1, r, u);
  }

  lemma NewPageKept(use: map<nat, Use>, ram1: map<nat, Page>, use1: map<nat, Use>, sh1: Shape,
                    ram2: map<nat, Page>, use2: map<nat, Use>, sh2: Shape,
                    r: nat, v: nat, m: nat, want: Want, u: nat)
    requires NewPage(use, ram1, use1, r, u, want) && IsRoot(sh1, r) && u < v && u < VPN_LIMIT
    requires Grew(ram1, use1, sh1, ram2, use2, sh2, r, v, m, want)
    ensures NewPage(use, ram2, use2, r, u, want)
  {
    hide Pte;
    hide Entry;
    hide Ppn;
    hide Behind;
    hide WantPage;
    hide WantPerm;
    assert Pte(ram2, r, u) == Pte(ram1, r, u);
    var c := Ppn(Pte(ram1, r, u));
    assert use2[c] == User && ram2[c] == ram1[c];
  }

  lemma GrewNext(ram: map<nat, Page>, use: map<nat, Use>, sh: Shape, ram1: map<nat, Page>, use1: map<nat, Use>,
                 sh1: Shape, ram2: map<nat, Page>, use2: map<nat, Use>, sh2: Shape,
                 r: nat, v: nat, n: nat, m: nat, want: Want)
    requires Grew(ram, use, sh, ram1, use1, sh1, r, v, n, want)
    requires Grew(ram1, use1, sh1, ram2, use2, sh2, r, v + n, m, want)
    requires IsRoot(sh, r) && v + n <= VPN_LIMIT
    ensures Grew(ram, use, sh, ram2, use2, sh2, r, v, n + m, want)
  {
    hide Pte;
    hide Behind;
    forall u: nat {:trigger NewPage(use, ram2, use2, r, u, want)} | v <= u < v + n + m
      ensures NewPage(use, ram2, use2, r, u, want)
    {
      if u < v + n {
        assert NewPage(use, ram1, use1, r, u, want);
        NewPageKept(use, ram1, use1, sh1, ram2, use2, sh2, r, v + n, m, want, u);
      } else {
        assert NewPage(use1, ram2, use2, r, u, want);
        assert use1[Ppn(Pte(ram2, r, u))] == Free;
      }
    }
    hide NewPage;
    forall p {:trigger ram2[p]} | p in use && (use[p] == User || use[p] == Held)
      ensures ram2[p] == ram[p]
    {
      assert use1[p] == use[p] && ram1[p] == ram[p];
    }
    forall p {:trigger use2[p]} | p in use
      ensures use2[p] == use[p] || (use[p] == Free && (use2[p] == Table || (use2[p] == User && Behind(ram2, r, v, n + m, p))))
    {
      assert use1[p] == use1[p];
      if Behind(ram1, r, v, n, p) {
        BehindMore(ram1, ram2, r, v, n, v, n + m, p);
      }
      if Behind(ram2, r, v + n, m, p) {
        BehindMore(ram2, ram2, r, v + n, m, v, n + m, p);
      }
    }
  }

  /** Every page in the range is one of the pages behind its entries, and the reverse. */
  lemma RangeBehind(ram: map<nat, Page>, use: map<nat, Use>, pos: map<nat, nat>, head: nat, sh: Shape,
                    user: map<nat, Place>, r: nat, v: nat, n: nat, p: nat)
    requires Inv(ram, use, pos, head, sh, user) && IsRoot(sh, r) && v + n <= TRAPFRAME_VPN
    ensures InRange(sh, user, p, r, v, n) <==> Behind(ram, r, v, n, p)
  {
    hide Pte;
    hide Ppn;
    hide Inv;
    if InRange(sh, user, p, r, v, n) {
      var u := VpnOf(sh, user[p].table, user[p].slot);
      assert InRange(sh, user, p, r, u, 1);
      if Pte(ram, r, u) == 0 {
        NobodyThere(ram, use, pos, head, sh, user, r, u);
      } else {
        OnlyThere(ram, use, pos, head, sh, user, r, u);
      }
    }
    if Behind(ram, r, v, n, p) {
      var u: nat :| v <= u < v + n && Pte(ram, r, u) != 0 && Ppn(Pte(ram, r, u)) == p;
      OnlyThere(ram, use, pos, head, sh, user, r, u);
      assert InRange(sh, user, p, r, u, 1);
    }
  }

  lemma BehindFree(ram: map<nat, Page>, use: map<nat, Use>, sh: Shape, ram1: map<nat, Page>, use1: map<nat, Use>,
                   sh1: Shape, r: nat, v: nat, n: nat, want: Want, p: nat)
    requires Grew(ram, use, sh, ram1, use1, sh1, r, v, n, want) && Behind(ram1, r, v, n, p)
    ensures p in use && use[p] == Free
  {
    hide Pte;
    hide Ppn;
    hide Entry;
    var u: nat :| v <= u < v + n && Pte(ram1, r, u) != 0 && Ppn(Pte(ram1, r, u)) == p;
    assert NewPage(use, ram1, use1, r, u, want);
  }

  /** A growth undone by unmapping what it mapped leaves only page tables behind. */
  lemma GrewUndone(ram: map<nat, Page>, use: map<nat, Use>, sh: Shape,
                   ram1: map<nat, Page>, use1: map<nat, Use>, pos1: map<nat, nat>, head1: nat, sh1: Shape,
                   user1: map<nat, Place>, ram2: map<nat, Page>, use2: map<nat, Use>, user2: map<nat, Place>,
                   r: nat, v: nat, n: nat, want: Want)
    requires Inv(ram1, use1, pos1, head1, sh1, user1) && IsRoot(sh1, r) && v + n <= TRAPFRAME_VPN
    requires Grew(ram, use, sh, ram1, use1, sh1, r, v, n, want)
    requires forall u: nat {:trigger Pte(ram, r, u)} | v <= u < v + n :: Pte(ram, r, u) == 0
    requires Unmapped(ram1, use1, sh1, user1, ram2, use2, user2, r, v, n, Free)
    ensures Extended(ram, use, sh, ram2, use2, sh1)
  {
    hide Pte;
    hide Inv;
    hide Behind;
    hide InRange;
    hide NewPage;
    hide IsRoot;
    forall p
      ensures InRange(sh1, user1, p, r, v, n) ==> p in use && use[p] == Free
      ensures InRange(sh1, user1, p, r, v, n) <==> Behind(ram1, r, v, n, p)
    {
      RangeBehind(ram1, use1, pos1, head1, sh1, user1, r, v, n, p);
      if Behind(ram1, r, v, n, p) {
        BehindFree(ram, use, sh, ram1, use1, sh1, r, v, n, want, p);
      }
    }
    forall p {:trigger ram2[p]} | p in use && (use[p] == User || use[p] == Held)
      ensures ram2[p] == ram[p]
    {
      assert use1[p] == use[p] && ram1[p] == ram[p];
    }
    forall p | p in use
      ensures use2[p] == use[p] || (use[p] == Free && use2[p] == Table)
    {
      assert use1[p] == use1[p];
    }
    forall q: nat, u: nat {:trigger Pte(ram2, q, u)} | IsRoot(sh, q) && u < VPN_LIMIT
      ensures Pte(ram2, q, u) == Pte(ram, q, u)
    {
      assert Pte(ram1, q, u) == Pte(ram, q, u) || (q == r && v <= u < v + n);
    }
  }

  /** A page taken, not mapped and given back: only page tables may have been added. */
  lemma GaveBack(ram: map<nat, Page>, use: map<nat, Use>, sh: Shape, c: nat, ram1: map<nat, Page>, use1: map<nat, Use>,
                 ram2: map<nat, Page>, use2: map<nat, Use>, sh2: Shape, ram3: map<nat, Page>,
                 use3: map<nat, Use>, r: nat, v: nat, perm: nat)
    requires Took(ram, use, sh, ram1, use1, c)
    requires Mapped(ram1, use1, sh, ram2, use2, sh2, r, v, 0, c, perm)
    requires use3 == use2[c := Free] && ram3.Keys == ram2.Keys && SameMaps(ram2, sh2, ram3, sh2)
    requires forall p {:trigger ram3[p]} | p in ram3 && p != c :: ram3[p] == ram2[p]
    ensures Extended(ram, use, sh, ram3, use3, sh2)
  {
    hide Pte;
    hide Entry;
    hide IsRoot;
    forall p {:trigger ram3[p]} | p in use && (use[p] == User || use[p] == Held)
      ensures ram3[p] == ram[p]
    {
      assert use1[p] == use[p] && ram1[p] == ram[p];
      assert ram2[p] == ram1[p];
    }
    forall p | p in use
      ensures use3[p] == use[p] || (use[p] == Free && use3[p] == Table)
    {
      assert p == c || use1[p] == use[p];
      assert use2[p] == use2[p];
    }
  }

  lemma TookSame(ram: map<nat, Page>, use: map<nat, Use>, sh: Shape, ram': map<nat, Page>, use': map<nat, Use>,
                 c: nat, r: nat, v: nat)
    requires Took(ram, use, sh, ram', use', c) && IsRoot(sh, r) && v < VPN_LIMIT
    ensures Pte(ram', r, v) == Pte(ram, r, v) && IsHeld(use', c)
  {
    hide Pte;
  }

  lemma MappedHeld(ram: map<nat, Page>, use: map<nat, Use>, sh: Shape, ram': map<nat, Page>, use': map<nat, Use>,
                   sh': Shape, r: nat, v: nat, c: nat, perm: nat)
    requires Mapped(ram, use, sh, ram', use', sh', r, v, 0, c, perm) && IsHeld(use, c)
    ensures c in use' && use'[c] == Held && c in ram'
  {
    hide Pte;
    hide Entry;
    assert use'[c] == use'[c];
  }

  lemma GrewOutside(ram: map<nat, Page>, use: map<nat, Use>, sh: Shape, ram': map<nat, Page>, use': map<nat, Use>,
                    sh': Shape, r: nat, v: nat, n: nat, want: Want, u: nat)
    requires Grew(ram, use, sh, ram', use', sh', r, v, n, want) && IsRoot(sh, r) && u < VPN_LIMIT
    requires !(v <= u < v + n)
    ensures Pte(ram', r, u) == Pte(ram, r, u)
  {
    hide Pte;
    hide NewPage;
    hide Behind;
  }

  lemma LeafFlags(w: nat)
    requires IsLeaf(w)
    ensures IsLeaf(w % 1024)
  {
    assert w == 1024 * (w / 1024) + w % 1024;
    assert w / 2 == 512 * (w / 1024) + w % 1024 / 2;
  }

  lemma KeepsRoots(ram: map<nat, Page>, use: map<nat, Use>, sh: Shape, ram': map<nat, Page>, use': map<nat, Use>,
                   sh': Shape, r: nat, v: nat, n: nat, c: nat, perm: nat, q: nat)
    requires Mapped(ram, use, sh, ram', use', sh', r, v, n, c, perm) && IsRoot(sh, q)
    ensures IsRoot(sh', q)
  {
    hide Pte;
    hide Entry;
  }

  /** Growing r' leaves the pages of r as they were. */
  lemma CopySource(ram: map<nat, Page>, use: map<nat, Use>, pos: map<nat, nat>, head: nat, sh: Shape,
                   user: map<nat, Place>, ram': map<nat, Page>, use': map<nat, Use>, sh': Shape,
                   r: nat, r': nat, v: nat, n: nat, want: Want, u: nat)
    requires Inv(ram, use, pos, head, sh, user) && Grew(ram, use, sh, ram', use', sh', r', v, n, want)
    requires IsRoot(sh, r) && r != r' && u < TRAPFRAME_VPN
    ensures Pte(ram', r, u) == Pte(ram, r, u)
    ensures Pte(ram', r, u) != 0 ==> Ppn(Pte(ram', r, u)) in ram'
                                     && WantPage(CopyOf(r, ram), u, ram'[Ppn(Pte(ram', r, u))])
  {
    hide Pte;
    hide NewPage;
    hide Behind;
    hide Ppn;
    hide Inv;
    if Pte(ram, r, u) != 0 {
      OnlyThere(ram, use, pos, head, sh, user, r, u);
      assert ram'[Ppn(Pte(ram, r, u))] == ram[Ppn(Pte(ram, r, u))];
    }
  }

  lemma IndexRange(level: nat, v: nat)
    requires v < VPN_LIMIT
    ensures level == 2 ==> PX(level, v) < 256
  {
  }

  lemma WalkStart(ram: map<nat, Page>, use: map<nat, Use>, pos: map<nat, nat>, head: nat, sh: Shape,
                  user: map<nat, Place>, r: nat, v: nat)
    requires Inv(ram, use, pos, head, sh, user) && IsRoot(sh, r)
    ensures Reached(ram, sh, r, v, 2, r) && Extended(ram, use, sh, ram, use, sh)
  {
    hide Inv;
    hide Extended;
    hide Reached;
    InvFacts(ram, use, pos, head, sh, user);
    ExtendedRefl(ram, use, sh);
    RootReached(ram, sh, r, v);
  }

  /** walk's new table, from the page taken to the entry that points to it. */
  lemma HangStep(ram0: map<nat, Page>, use0: map<nat, Use>, pos0: map<nat, nat>, head0: nat, sh: Shape,
                 user: map<nat, Place>, c: nat, ram1: map<nat, Page>, use1: map<nat, Use>, pos1: map<nat, nat>,
                 head1: nat, p: nat, k: nat, ram2: map<nat, Page>, sh2: Shape)
    requires Inv(ram0, use0, pos0, head0, sh, user) && Inv(ram1, use1, pos1, head1, sh, user)
    requires Took(ram0, use0, sh, ram1, use1, c) && c in ram1 && ram1[c] == Filled(0)
    requires p in sh && sh[p].level > 0 && k < 512 && (sh[p].level == 2 ==> k < 256) && !V(Word(ram0, p, k))
    requires p in ram1 && k < |ram1[p]| && ram2 == Stored(ram1, p, k, 1024 * c + 1) && sh2 == Hang(sh, p, k, c)
    ensures Inv(ram2, use1[c := Table], pos1, head1, sh2, user)
    ensures Extended(ram0, use0, sh, ram2, use1[c := Table], sh2)
    ensures c !in sh && Child(ram2, p, k) == c
    ensures forall q: nat, j: nat {:trigger Child(ram2, q, j)} | q in sh && (q != p || j != k) ::
              Child(ram2, q, j) == Child(ram0, q, j)
  {
    hide V;
    hide Ppn;
    hide Inv;
    hide Extended;
    hide SameMaps;
    InvFacts(ram0, use0, pos0, head0, sh, user);
    InvFacts(ram1, use1, pos1, head1, sh, user);
    TookWord(ram0, use0, sh, c, ram1, use1);
    assert ZeroPage(ram1, c);
    hide Filled;
    hide ZeroPage;
    hide NodeOk;
    InvHang(ram1, use1, pos1, head1, sh, user, p, k, c, ram2, sh2);
    TookTable(ram0, use0, sh, c, ram1, use1, p, k, ram2, sh2);
  }

  lemma TookTablePage(ram: map<nat, Page>, use: map<nat, Use>, pos: map<nat, nat>, head: nat, sh: Shape,
                      user: map<nat, Place>, p: nat)
    requires Inv(ram, use, pos, head, sh, user) && p in sh
    ensures p in ram && |ram[p]| == 512
  {
    hide Inv;
    InvFacts(ram, use, pos, head, sh, user);
  }

  /** Page p is a table of address space r or a user page mapped in it. */
  ghost predicate OwnedBy(sh: Shape, user: map<nat, Place>, p: nat, r: nat)
  {
    || (p in sh && sh[p].root == r)
    || (p in user && user[p].table in sh && sh[user[p].table].root == r)
  }

  /** Address space r is gone: its tables and user pages are free and nothing else changed. */
  ghost predicate SpaceFreed(ram: map<nat, Page>, use: map<nat, Use>, sh: Shape, user: map<nat, Place>,
                             ram': map<nat, Page>, use': map<nat, Use>, sh': Shape, r: nat)
  {
    && use'.Keys == use.Keys == ram.Keys == ram'.Keys
    && (forall p {:trigger use'[p]} | p in use :: use'[p] == if OwnedBy(sh, user, p, r) then Free else use[p])
    && (forall c {:trigger c in sh'} :: c in sh' <==> c in sh && sh[c].root != r)
    && (forall q: nat, v: nat {:trigger Pte(ram', q, v)} | IsRoot(sh, q) && q != r && v < VPN_LIMIT ::
          Pte(ram', q, v) == Pte(ram, q, v))
    && (forall p {:trigger ram'[p]} | p in use && (use[p] == User || use[p] == Held) && !OwnedBy(sh, user, p, r) ::
          ram'[p] == ram[p])
  }

  lemma UnderRoot(ram: map<nat, Page>, sh: Shape, r: nat, c: nat)
    requires Tree(ram, sh, {}) && IsRoot(sh, r) && c in sh
    ensures Under(sh, r, c) <==> sh[c].root == r
  {
    hide V;
    hide Ppn;
    hide IsLeaf;
    if sh[c].level < 2 {
      var p := sh[c].parent;
      assert Below(sh, p, sh[c].slot, c) by {
        assert Child(ram, p, sh[c].slot) == c;
      }
      if sh[p].level < 2 {
        var q := sh[p].parent;
        assert Below(sh, q, sh[p].slot, p) by {
          assert Child(ram, q, sh[p].slot) == p;
        }
      }
    }
  }

  lemma NoLeafLeft(ram: map<nat, Page>, sh: Shape, r: nat)
    requires Tree(ram, sh, {}) && IsRoot(sh, r)
    requires forall u: nat {:trigger Pte(ram, r, u)} | u < VPN_LIMIT :: Pte(ram, r, u) == 0
    ensures NoLeaf(ram, sh, r) && Ready(ram, sh, r, {})
  {
    hide V;
    hide Tree;
    hide Under;
    TreeDomains(ram, sh, {});
    forall c: nat, k: nat {:trigger Word(ram, c, k)} | Under(sh, r, c) && InTable(sh, c, k)
      ensures !V(Word(ram, c, k))
    {
      UnderRoot(ram, sh, r, c);
      Found(ram, sh, c, k);
      assert NodeOk(c, sh[c]);
      assert VpnOf(sh, c, k) < VPN_LIMIT;
      PteAt(ram, r, VpnOf(sh, c, k));
      assert Pte(ram, r, VpnOf(sh, c, k)) == 0;
    }
  }

  lemma SpaceSame(ram: map<nat, Page>, ram': map<nat, Page>, sh: Shape, q: nat, v: nat)
    requires Tree(ram, sh, {}) && IsRoot(sh, q) && v < VPN_LIMIT
    requires forall p: nat, k: nat {:trigger Word(ram', p, k)} | p in sh && sh[p].root == q ::
      Word(ram', p, k) == Word(ram, p, k)
    ensures Pte(ram', q, v) == Pte(ram, q, v)
  {
    hide V;
    hide Ppn;
    hide Word;
    TreeDomains(ram, sh, {});
    hide Tree;
    Located(ram, sh, q, v);
    assert NodeOk(q, sh[q]);
  }

  /** All of the user pages of r lie among its first n pages if nothing is mapped above them. */
  lemma AllInRange(ram: map<nat, Page>, use: map<nat, Use>, pos: map<nat, nat>, head: nat, sh: Shape,
                   user: map<nat, Place>, r: nat, n: nat, p: nat)
    requires Inv(ram, use, pos, head, sh, user)
    requires forall u: nat {:trigger Pte(ram, r, u)} | n <= u < VPN_LIMIT :: Pte(ram, r, u) == 0
    requires p in user && user[p].table in sh && sh[user[p].table].root == r
    ensures InRange(sh, user, p, r, 0, n)
  {
    hide Pte;
    hide Inv;
    var u := VpnOf(sh, user[p].table, user[p].slot);
    assert InRange(sh, user, p, r, u, 1);
    InvTree(ram, use, pos, head, sh, user);
    InvFacts(ram, use, pos, head, sh, user);
    hide Tree;
    hide Leaves;
    UserFound(ram, sh, user, r, u, p);
  }

  lemma LeavesTorn(ram1: map<nat, Page>, use1: map<nat, Use>, sh: Shape, user: map<nat, Place>,
                   ram2: map<nat, Page>, use2: map<nat, Use>, sh2: Shape, gone: iset<nat>, r: nat)
    requires Leaves(ram1, sh, user) && Torn(ram1, use1, sh, ram2, use2, sh2, gone, r) && r in gone
    requires Domains(ram1, sh)
    requires forall u | u in user :: user[u].table !in gone
    ensures Leaves(ram2, sh2, user)
    ensures forall c: nat, k: nat {:trigger Word(ram2, c, k)} | c in sh && c !in gone ::
      Word(ram2, c, k) == Word(ram1, c, k)
  {
    hide V;
    hide Ppn;
    hide IsLeaf;
    hide NodeOk;
    forall c: nat, k: nat {:trigger Word(ram2, c, k)} | c in sh && c !in gone
      ensures Word(ram2, c, k) == Word(ram1, c, k)
    {
      assert c in ram1 && c in ram2 && ram2[c] == ram1[c];
    }
    hide Word;
    forall p: nat, k: nat {:trigger Word(ram2, p, k)} | InTable(sh2, p, k)
      ensures InTable(sh, p, k) && p !in gone && sh2[p] == sh[p]
    {
      assert p in sh2;
    }
    forall u | u in user
      ensures user[u].table in sh2 && sh2[user[u].table] == sh[user[u].table]
    {
      assert user[u].table in sh2;
    }
  }

  lemma GoneIs(ram: map<nat, Page>, sh: Shape, r: nat)
    requires Tree(ram, sh, {}) && IsRoot(sh, r)
    ensures forall c: nat :: c in Subtree(sh, r) <==> c in sh && sh[c].root == r
    ensures r in Subtree(sh, r)
  {
    hide Tree;
    forall c: nat
      ensures c in Subtree(sh, r) <==> c in sh && sh[c].root == r
    {
      if c in sh {
        UnderRoot(ram, sh, r, c);
      }
    }
  }

  /** Every user page of r is among its first n pages. */
  ghost predicate AllWithin(sh: Shape, user: map<nat, Place>, r: nat, n: nat)
  {
    forall p {:trigger InRange(sh, user, p, r, 0, n)} |
      p in user && user[p].table in sh && sh[user[p].table].root == r :: InRange(sh, user, p, r, 0, n)
  }

  ghost predicate TablesOf(sh: Shape, r: nat, gone: iset<nat>)
  {
    forall c: nat :: c in gone <==> c in sh && sh[c].root == r
  }

  lemma FreedUses(ram: map<nat, Page>, use: map<nat, Use>, sh: Shape, user: map<nat, Place>,
                  ram1: map<nat, Page>, use1: map<nat, Use>, user1: map<nat, Place>,
                  ram2: map<nat, Page>, use2: map<nat, Use>, sh2: Shape, gone: iset<nat>, r: nat, n: nat)
    requires Unmapped(ram, use, sh, user, ram1, use1, user1, r, 0, n, Free)
    requires Torn(ram1, use1, sh, ram2, use2, sh2, gone, r) && TablesOf(sh, r, gone) && AllWithin(sh, user, r, n)
    ensures use2.Keys == use.Keys == ram.Keys == ram2.Keys
    ensures forall p {:trigger use2[p]} | p in use :: use2[p] == if OwnedBy(sh, user, p, r) then Free else use[p]
    ensures forall c {:trigger c in sh2} :: c in sh2 <==> c in sh && sh[c].root != r
  {
    hide VpnOf;
    hide Pte;
    forall p {:trigger use2[p]} | p in use
      ensures use2[p] == if OwnedBy(sh, user, p, r) then Free else use[p]
    {
      assert use1[p] == if InRange(sh, user, p, r, 0, n) then Free else use[p];
    }
  }

  lemma FreedData(ram: map<nat, Page>, use: map<nat, Use>, sh: Shape, user: map<nat, Place>,
                  ram1: map<nat, Page>, use1: map<nat, Use>, user1: map<nat, Place>,
                  ram2: map<nat, Page>, use2: map<nat, Use>, sh2: Shape, gone: iset<nat>, r: nat, n: nat)
    requires Unmapped(ram, use, sh, user, ram1, use1, user1, r, 0, n, Free)
    requires Torn(ram1, use1, sh, ram2, use2, sh2, gone, r) && TablesOf(sh, r, gone) && r in gone
    ensures forall p {:trigger ram2[p]} | p in use && (use[p] == User || use[p] == Held) && !OwnedBy(sh, user, p, r) ::
      ram2[p] == ram[p]
  {
    hide Pte;
    hide InRange;
    forall p {:trigger ram2[p]} | p in use && (use[p] == User || use[p] == Held) && !OwnedBy(sh, user, p, r)
      ensures ram2[p] == ram[p]
    {
      RangeOwned(sh, user, p, r, n);
      assert ram1[p] == ram[p];
    }
  }

  lemma FreedLeaves(ram: map<nat, Page>, use: map<nat, Use>, sh: Shape, user: map<nat, Place>,
                    ram1: map<nat, Page>, use1: map<nat, Use>, user1: map<nat, Place>, gone: iset<nat>, r: nat, n: nat)
    requires Unmapped(ram, use, sh, user, ram1, use1, user1, r, 0, n, Free)
    requires TablesOf(sh, r, gone) && AllWithin(sh, user, r, n)
    ensures forall u | u in user1 :: user1[u].table !in gone
  {
    hide Pte;
    hide InRange;
    forall u | u in user1
      ensures user1[u].table !in gone
    {
      assert u in user && user1[u] == user[u] && !InRange(sh, user, u, r, 0, n);
    }
  }

  /** Unmapping an address space and then freeing its tables. */
  lemma FreedSpace(ram: map<nat, Page>, use: map<nat, Use>, pos: map<nat, nat>, head: nat, sh: Shape,
                   user: map<nat, Place>, ram1: map<nat, Page>, use1: map<nat, Use>, pos1: map<nat, nat>, head1: nat,
                   user1: map<nat, Place>, ram2: map<nat, Page>, use2: map<nat, Use>, sh2: Shape, r: nat, n: nat)
    requires Inv(ram, use, pos, head, sh, user) && Inv(ram1, use1, pos1, head1, sh, user1) && IsRoot(sh, r)
    requires forall u: nat {:trigger Pte(ram, r, u)} | n <= u < VPN_LIMIT :: Pte(ram, r, u) == 0
    requires Unmapped(ram, use, sh, user, ram1, use1, user1, r, 0, n, Free)
    requires Torn(ram1, use1, sh, ram2, use2, sh2, Subtree(sh, r), r)
    ensures SpaceFreed(ram, use, sh, user, ram2, use2, sh2, r)
    ensures Leaves(ram2, sh2, user1)
  {
    hide Inv;
    hide Pte;
    hide InRange;
    hide Subtree;
    hide Tree;
    hide Leaves;
    hide Torn;
    hide Unmapped;
    hide Domains;
    hide OwnedBy;
    InvTree(ram1, use1, pos1, head1, sh, user1);
    TreeDomains(ram1, sh, {});
    GoneIs(ram1, sh, r);
    var gone := Subtree(sh, r);
    assert TablesOf(sh, r, gone);
    hide TablesOf;
    forall p {:trigger InRange(sh, user, p, r, 0, n)} | p in user && user[p].table in sh && sh[user[p].table].root == r
      ensures InRange(sh, user, p, r, 0, n)
    {
      AllInRange(ram, use, pos, head, sh, user, r, n, p);
    }
    assert AllWithin(sh, user, r, n);
    hide AllWithin;
    FreedUses(ram, use, sh, user, ram1, use1, user1, ram2, use2, sh2, gone, r, n);
    FreedData(ram, use, sh, user, ram1, use1, user1, ram2, use2, sh2, gone, r, n);
    FreedLeaves(ram, use, sh, user, ram1, use1, user1, gone, r, n);
    LeavesTorn(ram1, use1, sh, user1, ram2, use2, sh2, gone, r);
    FreedMaps(ram, use, user, ram1, use1, user1, ram2, sh, r, n, gone);
  }

  lemma RangeOwned(sh: Shape, user: map<nat, Place>, p: nat, r: nat, n: nat)
    ensures InRange(sh, user, p, r, 0, n) ==> OwnedBy(sh, user, p, r)
  {
  }

  lemma FreedMaps(ram: map<nat, Page>, use: map<nat, Use>, user: map<nat, Place>, ram1: map<nat, Page>,
                  use1: map<nat, Use>, user1: map<nat, Place>, ram2: map<nat, Page>, sh: Shape, r: nat, n: nat,
                  gone: iset<nat>)
    requires Tree(ram1, sh, {}) && Unmapped(ram, use, sh, user, ram1, use1, user1, r, 0, n, Free)
    requires TablesOf(sh, r, gone)
    requires forall c: nat, k: nat {:trigger Word(ram2, c, k)} | c in sh && c !in gone ::
      Word(ram2, c, k) == Word(ram1, c, k)
    ensures forall q: nat, v: nat {:trigger Pte(ram2, q, v)} | IsRoot(sh, q) && q != r && v < VPN_LIMIT ::
      Pte(ram2, q, v) == Pte(ram, q, v)
  {
    hide Pte;
    hide Word;
    hide Tree;
    hide InRange;
    forall q: nat, v: nat {:trigger Pte(ram2, q, v)} | IsRoot(sh, q) && q != r && v < VPN_LIMIT
      ensures Pte(ram2, q, v) == Pte(ram, q, v)
    {
      SpaceSame(ram1, ram2, sh, q, v);
    }
  }

  lemma MakeInv(ram: map<nat, Page>, use: map<nat, Use>, pos: map<nat, nat>, head: nat, sh: Shape, user: map<nat,
                Place>)
    requires Allocator(ram, use, pos, head, sh.Keys, user.Keys) && Tree(ram, sh, {}) && Leaves(ram, sh, user)
    ensures Inv(ram, use, pos, head, sh, user)
  {
  }

  lemma EmptySpace(ram: map<nat, Page>, use: map<nat, Use>, sh: Shape, user: map<nat, Place>,
                   ram1: map<nat, Page>, use1: map<nat, Use>, pos1: map<nat, nat>, head1: nat, user1: map<nat, Place>,
                   r: nat, n: nat)
    requires Unmapped(ram, use, sh, user, ram1, use1, user1, r, 0, n, Free)
    requires Inv(ram1, use1, pos1, head1, sh, user1) && IsRoot(sh, r)
    requires forall u: nat {:trigger Pte(ram, r, u)} | n <= u < VPN_LIMIT :: Pte(ram, r, u) == 0
    ensures Ready(ram1, sh, r, {})
  {
    hide Pte;
    hide Inv;
    hide Ready;
    hide NoLeaf;
    hide InRange;
    InvTree(ram1, use1, pos1, head1, sh, user1);
    hide Tree;
    hide Leaves;
    NoLeafLeft(ram1, sh, r);
  }

  /** With every page free and no page table there is nothing more to the invariant. */
  lemma AllFree(ram: map<nat, Page>, use: map<nat, Use>, pos: map<nat, nat>, head: nat, sh: Shape, user: map<nat,
                Place>)
    requires Allocator(ram, use, pos, head, sh.Keys, user.Keys) && sh == map[] && user == map[]
    requires forall p | p in use :: use[p] == Free
    ensures Inv(ram, use, pos, head, sh, user) && pos.Keys == ram.Keys
  {
    hide FreeList;
  }

  /** The pages on the list are those counted as free. */
  lemma FreeSet(ram: map<nat, Page>, use: map<nat, Use>, pos: map<nat, nat>, head: nat, sh: Shape, user: map<nat,
                Place>)
    requires Inv(ram, use, pos, head, sh, user)
    ensures pos.Keys == set p | p in use && use[p] == Free
  {
    hide Tree;
    hide Leaves;
    hide FreeList;
  }

  lemma TookFree(ram: map<nat, Page>, use: map<nat, Use>, sh: Shape, ram': map<nat, Page>, use': map<nat, Use>, c: nat)
    requires Took(ram, use, sh, ram', use', c)
    ensures c in use && use[c] == Free
  {
  }

  lemma RootsHang(ram: map<nat, Page>, use: map<nat, Use>, pos: map<nat, nat>, head: nat, sh: Shape, user: map<nat,
                  Place>,
                  roots: set<nat>, p: nat, k: nat, c: nat)
    requires Inv(ram, use, pos, head, sh, user) && Roots(sh, roots) && p in sh && 0 < sh[p].level
    requires c in use && use[c] == Free
    ensures Roots(Hang(sh, p, k, c), roots)
  {
    hide Inv;
    InvFacts(ram, use, pos, head, sh, user);
    assert NodeOk(p, sh[p]);
    forall q: nat
      ensures q in roots <==> IsRoot(Hang(sh, p, k, c), q)
    {
      assert q in roots <==> IsRoot(sh, q);
    }
  }

  lemma RootsAdd(sh: Shape, roots: set<nat>, r: nat)
    requires Roots(sh, roots) && r !in sh
    ensures Roots(sh[r := Node(2, r, 0, 0, 0)], roots + {r})
  {
    forall q: nat
      ensures q in roots + {r} <==> IsRoot(sh[r := Node(2, r, 0, 0, 0)], q)
    {
      assert q in roots <==> IsRoot(sh, q);
    }
  }

  /** Freeing the tables of address space r takes away just that one. */
  lemma RootsTorn(ram: map<nat, Page>, use: map<nat, Use>, pos: map<nat, nat>, head: nat, sh: Shape, user: map<nat,
                  Place>,
                  roots: set<nat>, ram2: map<nat, Page>, use2: map<nat, Use>, sh2: Shape, r: nat)
    requires Roots(sh, roots) && Inv(ram, use, pos, head, sh, user) && IsRoot(sh, r)
    requires Torn(ram, use, sh, ram2, use2, sh2, Subtree(sh, r), r)
    ensures Roots(sh2, roots - {r})
  {
    hide Inv;
    hide Tree;
    hide Under;
    InvTree(ram, use, pos, head, sh, user);
    TreeFacts(ram, sh, {});
    forall q: nat
      ensures q in roots - {r} <==> IsRoot(sh2, q)
    {
      assert q in roots <==> IsRoot(sh, q);
      assert q in sh2 <==> q in sh && q !in Subtree(sh, r);
      if IsRoot(sh, q) {
        UnderRoot(ram, sh, r, q);
        assert NodeOk(q, sh[q]);
      }
    }
  }

  /** Every table belongs to an address space. */
  lemma RootOf(ram: map<nat, Page>, sh: Shape, p: nat) returns (r: nat)
    requires Tree(ram, sh, {}) && p in sh
    ensures IsRoot(sh, r)
  {
    hide Down;
    assert NodeOk(p, sh[p]);
    r := p;
    if sh[r].level == 0 {
      r := sh[r].parent;
    }
    if sh[r].level == 1 {
      r := sh[r].parent;
    }
  }

  /** With no address space left there is no table and no user page. */
  lemma NoSpaces(ram: map<nat, Page>, use: map<nat, Use>, pos: map<nat, nat>, head: nat, sh: Shape, user: map<nat,
                 Place>)
    requires Inv(ram, use, pos, head, sh, user) && Roots(sh, {})
    ensures forall p | p in use :: use[p] == Free || use[p] == Held
  {
    hide Allocator;
    hide Tree;
    assert forall u | u in user :: user[u].table in sh;
    hide Leaves;
    forall p: nat
      ensures p !in sh
    {
      if p in sh {
        var r := RootOf(ram, sh, p);
      }
    }
    NothingUsed(ram, use, pos, head, sh, user);
  }

  lemma NothingUsed(ram: map<nat, Page>, use: map<nat, Use>, pos: map<nat, nat>, head: nat, sh: Shape, user: map<nat,
                    Place>)
    requires Allocator(ram, use, pos, head, sh.Keys, user.Keys)
    requires (forall p :: p !in sh) && (forall u :: u !in user)
    ensures forall p | p in use :: use[p] == Free || use[p] == Held
  {
  }
}
