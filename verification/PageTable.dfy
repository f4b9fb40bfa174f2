/**
 * Three-level page tables (kernel/vm.c, kernel/riscv.h; Sv39, section 4.4 of
 * the RISC-V Privileged Architecture specification).  The ghost maps say of
 * each page-table page its level, the root it belongs to, the part of the
 * address space it covers and the slot of its parent that points to it.
 */
module PageTable {
  import opened Pages

  const MAXVA: nat := 0x4000000000
  /** Page number of the trapframe page; user memory lies below it. */
  const TRAPFRAME_VPN: nat := 0x3FFFFFE
  const VPN_LIMIT: nat := 0x4000000

  predicate V(w: nat) { w % 2 == 1 }

  /** Bits 1 to 3: the entry is a leaf. */
  predicate IsLeaf(w: nat) { w / 2 % 8 != 0 }

  /** The PTE_U bit. */
  predicate U(w: nat) { w / 16 % 2 == 1 }

  /** PTE2PA(w) / PGSIZE */
  function Ppn(w: nat): (p: nat) { w / 1024 }

  /** PA2PTE(pa) | perm | PTE_V, for the page numbered ppn. */
  function Entry(ppn: nat, perm: nat): (w: nat)
  {
    1024 * ppn + perm / 2 * 2 + 1
  }

  lemma EntryFields(ppn: nat, perm: nat)
    requires perm < 1024
    ensures V(Entry(ppn, perm)) && Ppn(Entry(ppn, perm)) == ppn && Entry(ppn, perm) % 1024 == perm / 2 * 2 + 1
    ensures IsLeaf(Entry(ppn, perm)) == IsLeaf(perm)
    ensures U(Entry(ppn, perm)) == U(perm)
  {
    var h := perm / 2;
    assert h < 512;
    assert Entry(ppn, perm) / 2 == 512 * ppn + h;
    assert Entry(ppn, perm) / 16 == 64 * ppn + perm / 16;
  }

  /** The page a valid non-leaf entry points to, 0 if the entry is not valid. */
  function Child(ram: map<nat, Page>, p: nat, k: nat): (c: nat)
  {
    if V(Word(ram, p, k)) then Ppn(Word(ram, p, k)) else 0
  }

  /** The last-level table that covers virtual page v, 0 if there is none. */
  function LastTable(ram: map<nat, Page>, r: nat, v: nat): (t: nat)
  {
    var t1 := Child(ram, r, v / 262144);
    if t1 == 0 then 0 else Child(ram, t1, v / 512 % 512)
  }

  /** The hardware's translation: the entry for virtual page v, 0 if none is valid. */
  function Pte(ram: map<nat, Page>, r: nat, v: nat): (w: nat)
  {
    var t := LastTable(ram, r, v);
    if t == 0 || !V(Word(ram, t, v % 512)) then 0 else Word(ram, t, v % 512)
  }

  /** A page-table page: its level, its root, the prefix of the page numbers it covers, and what points to it. */
  datatype Node = Node(level: nat, root: nat, base: nat, parent: nat, slot: nat)

  type Shape = map<nat, Node>

  ghost predicate NodeOk(p: nat, n: Node)
  {
    || (n.level == 2 && n.root == p && n.base == 0)
    || (n.level == 1 && n.base < 256)
    || (n.level == 0 && n.base < 131072)
  }

  ghost predicate Domains(ram: map<nat, Page>, sh: Shape)
  {
    && sh.Keys <= ram.Keys
    && (forall p | p in sh :: NodeOk(p, sh[p]))
  }

  /** Page c is what slot k of table p should point to. */
  ghost predicate Below(sh: Shape, p: nat, k: nat, c: nat)
    requires p in sh && sh[p].level > 0
  {
    c in sh && sh[c] == Node(sh[p].level - 1, sh[p].root, 512 * sh[p].base + k, p, k)
  }

  /** Valid entries of inner tables lead one level down; tables in loose are being torn down. */
  ghost predicate Down(ram: map<nat, Page>, sh: Shape, loose: set<nat>)
    requires Domains(ram, sh)
  {
    forall p: nat, k: nat {:trigger Word(ram, p, k)} |
      p in sh && sh[p].level > 0 && p !in loose && k < 512 && V(Word(ram, p, k)) ::
      !IsLeaf(Word(ram, p, k)) && Below(sh, p, k, Ppn(Word(ram, p, k)))
  }

  /** Every table below the root is pointed to by its parent. */
  ghost predicate Hung(ram: map<nat, Page>, sh: Shape)
    requires Domains(ram, sh)
  {
    forall c {:trigger sh[c].parent} | c in sh && sh[c].level < 2 ::
      sh[c].parent in sh && sh[sh[c].parent].level == sh[c].level + 1
      && sh[c].slot < 512 && Child(ram, sh[c].parent, sh[c].slot) == c
  }

  ghost predicate Tree(ram: map<nat, Page>, sh: Shape, loose: set<nat>)
  {
    RamOk(ram) && Domains(ram, sh) && Down(ram, sh, loose) && Hung(ram, sh)
  }

  ghost predicate IsRoot(sh: Shape, r: nat)
  {
    r in sh && sh[r].level == 2
  }

  /** The table found for a page number covers it. */
  lemma Located(ram: map<nat, Page>, sh: Shape, r: nat, v: nat)
    requires Tree(ram, sh, {}) && IsRoot(sh, r) && v < VPN_LIMIT
    ensures var t1 := Child(ram, r, v / 262144);
      t1 != 0 ==> t1 in sh && sh[t1].level == 1 && sh[t1].root == r && sh[t1].base == v / 262144
    ensures var t := LastTable(ram, r, v);
      t != 0 ==> t in sh && sh[t].level == 0 && sh[t].root == r && sh[t].base == v / 512
  {
    hide V;
    hide IsLeaf;
    hide Ppn;
    hide Hung;
    var t1 := Child(ram, r, v / 262144);
    if t1 != 0 {
      assert Below(sh, r, v / 262144, t1);
    }
  }

  /** Distinct pages use distinct slots. */
  lemma DistinctSlots(ram: map<nat, Page>, sh: Shape, r: nat, v: nat, r': nat, v': nat)
    requires Tree(ram, sh, {}) && IsRoot(sh, r) && IsRoot(sh, r') && v < VPN_LIMIT && v' < VPN_LIMIT
    requires LastTable(ram, r, v) != 0 && LastTable(ram, r', v') != 0
    requires (r, v) != (r', v')
    ensures 512 * LastTable(ram, r, v) + v % 512 != 512 * LastTable(ram, r', v') + v' % 512
  {
    hide Tree;
    Located(ram, sh, r, v);
    Located(ram, sh, r', v');
    hide LastTable;
  }

  /** A change outside the page tables changes no page table. */
  lemma Elsewhere(ram: map<nat, Page>, ram': map<nat, Page>, sh: Shape, loose: set<nat>)
    requires Tree(ram, sh, loose) && RamOk(ram') && ram'.Keys == ram.Keys
    requires forall p: nat, k: nat {:trigger Word(ram', p, k)} | p in sh :: Word(ram', p, k) == Word(ram, p, k)
    ensures Tree(ram', sh, loose)
  {
    hide V;
    hide IsLeaf;
    hide Ppn;
    hide Word;
  }

  lemma SameTables(ram: map<nat, Page>, ram': map<nat, Page>, sh: Shape, r: nat, v: nat)
    requires Tree(ram, sh, {}) && IsRoot(sh, r) && v < VPN_LIMIT
    requires forall p: nat, k: nat {:trigger Word(ram', p, k)} | p in sh :: Word(ram', p, k) == Word(ram, p, k)
    ensures Pte(ram', r, v) == Pte(ram, r, v) && LastTable(ram', r, v) == LastTable(ram, r, v)
  {
    hide V;
    hide Ppn;
    hide Word;
    hide Tree;
    Located(ram, sh, r, v);
  }

  /** Writing a last-level slot changes the translation of its page and of no other. */
  lemma SetEntry(ram: map<nat, Page>, sh: Shape, r: nat, v: nat, w: nat, t: nat, ram': map<nat, Page>,
                 r': nat, v': nat)
    requires Tree(ram, sh, {}) && IsRoot(sh, r) && v < VPN_LIMIT
    requires t == LastTable(ram, r, v) != 0
    requires RamOk(ram) && t in ram && ram' == Stored(ram, t, v % 512, w)
    requires IsRoot(sh, r') && v' < VPN_LIMIT
    ensures Pte(ram', r', v') == if r' == r && v' == v then (if V(w) then w else 0) else Pte(ram, r', v')
    ensures LastTable(ram', r', v') == LastTable(ram, r', v')
  {
    hide V;
    hide Ppn;
    hide Tree;
    StoredWords(ram, t, v % 512, w);
    hide Word;
    hide Stored;
    Located(ram, sh, r, v);
    Located(ram, sh, r', v');
  }

  lemma SetEntryTree(ram: map<nat, Page>, sh: Shape, t: nat, k: nat, w: nat, ram': map<nat, Page>)
    requires Tree(ram, sh, {}) && t in sh && sh[t].level == 0 && k < 512
    requires RamOk(ram) && t in ram && ram' == Stored(ram, t, k, w)
    ensures Tree(ram', sh, {})
  {
    hide V;
    hide IsLeaf;
    hide Ppn;
    StoredWords(ram, t, k, w);
    hide Word;
    hide Stored;
  }

  /** The shape with table c hung from slot k of p. */
  ghost function Hang(sh: Shape, p: nat, k: nat, c: nat): (s: Shape)
    requires p in sh && sh[p].level > 0
  {
    sh[c := Node(sh[p].level - 1, sh[p].root, 512 * sh[p].base + k, p, k)]
  }

  ghost predicate ZeroPage(ram: map<nat, Page>, c: nat)
  {
    forall k: nat {:trigger Word(ram, c, k)} :: Word(ram, c, k) == 0
  }

  lemma Pointer(c: nat)
    ensures V(1024 * c + 1) && Ppn(1024 * c + 1) == c && !IsLeaf(1024 * c + 1) && !V(0)
  {
    assert (1024 * c + 1) / 2 == 512 * c;
  }

  lemma AddDown(ram: map<nat, Page>, sh: Shape, p: nat, k: nat, c: nat, ram': map<nat, Page>, sh': Shape)
    requires Domains(ram, sh) && Domains(ram', sh') && Down(ram, sh, {})
    requires p in sh && sh[p].level > 0 && k < 512 && c !in sh && ZeroPage(ram, c)
    requires sh' == Hang(sh, p, k, c)
    requires Ppn(1024 * c + 1) == c && !IsLeaf(1024 * c + 1) && !V(0)
    requires forall q: nat, j: nat {:trigger Word(ram', q, j)} ::
               Word(ram', q, j) == if q == p && j == k then 1024 * c + 1 else Word(ram, q, j)
    ensures Down(ram', sh', {})
  {
    hide V;
    hide IsLeaf;
    hide Ppn;
    hide Word;
    hide Domains;
    forall q: nat, j: nat {:trigger Word(ram', q, j)} |
      q in sh' && sh'[q].level > 0 && j < 512 && V(Word(ram', q, j))
      ensures !IsLeaf(Word(ram', q, j)) && Below(sh', q, j, Ppn(Word(ram', q, j)))
    {
      if q != c && (q != p || j != k) {
        assert Below(sh, q, j, Ppn(Word(ram, q, j)));
      }
    }
  }

  lemma AddHung(ram: map<nat, Page>, sh: Shape, p: nat, k: nat, c: nat, ram': map<nat, Page>, sh': Shape)
    requires RamOk(ram) && Domains(ram, sh) && Domains(ram', sh') && Hung(ram, sh)
    requires p in sh && sh[p].level > 0 && k < 512 && c !in sh && !V(Word(ram, p, k)) && c != 0
    requires sh' == Hang(sh, p, k, c)
    requires Child(ram', p, k) == c
    requires forall q: nat, j: nat {:trigger Child(ram', q, j)} | q != p || j != k ::
      Child(ram', q, j) == Child(ram, q, j)
    ensures Hung(ram', sh')
  {
    hide V;
    hide Ppn;
    hide Word;
    assert Child(ram, p, k) == 0;
    hide Child;
    forall d {:trigger sh'[d].parent} | d in sh' && sh'[d].level < 2
      ensures sh'[d].parent in sh' && sh'[sh'[d].parent].level == sh'[d].level + 1
      ensures sh'[d].slot < 512 && Child(ram', sh'[d].parent, sh'[d].slot) == d
    {
      if d != c {
        assert sh'[d].parent == sh[d].parent;
        assert d != 0 by {
          assert d in sh;
        }
      }
    }
  }

  /** Creating an intermediate table keeps the tree. */
  lemma AddTable(ram: map<nat, Page>, sh: Shape, p: nat, k: nat, c: nat, ram': map<nat, Page>, sh': Shape)
    requires Tree(ram, sh, {}) && p in sh && sh[p].level > 0 && k < 512 && !V(Word(ram, p, k))
    requires c in ram && c !in sh && ZeroPage(ram, c) && (sh[p].level == 2 ==> k < 256)
    requires RamOk(ram) && p in ram && ram' == Stored(ram, p, k, 1024 * c + 1)
    requires sh' == Hang(sh, p, k, c)
    ensures Tree(ram', sh', {})
  {
    Pointer(c);
    hide V;
    hide IsLeaf;
    hide Ppn;
    hide Down;
    hide Hung;
    StoredWords(ram, p, k, 1024 * c + 1);
    hide Word;
    hide Stored;
    AddDown(ram, sh, p, k, c, ram', sh');
    AddHung(ram, sh, p, k, c, ram', sh');
  }

  /** Creating an intermediate table changes no translation. */
  lemma AddTableSame(ram: map<nat, Page>, sh: Shape, p: nat, k: nat, c: nat, ram': map<nat, Page>, r: nat, v: nat)
    requires Tree(ram, sh, {}) && p in sh && sh[p].level > 0 && k < 512 && !V(Word(ram, p, k))
    requires c in ram && c !in sh && ZeroPage(ram, c)
    requires RamOk(ram) && p in ram && ram' == Stored(ram, p, k, 1024 * c + 1)
    requires IsRoot(sh, r) && v < VPN_LIMIT
    ensures Pte(ram', r, v) == Pte(ram, r, v)
  {
    Pointer(c);
    hide V;
    hide Ppn;
    hide Tree;
    StoredWords(ram, p, k, 1024 * c + 1);
    hide Word;
    hide Stored;
    Located(ram, sh, r, v);
  }

  /** Where a user page is mapped: a last-level table and a slot. */
  datatype Place = Place(table: nat, slot: nat)

  ghost predicate InTable(sh: Shape, p: nat, k: nat)
  {
    p in sh && sh[p].level == 0 && k < 512
  }

  ghost function VpnOf(sh: Shape, p: nat, k: nat): nat
    requires p in sh
  {
    512 * sh[p].base + k
  }

  /** Valid last-level entries are leaves; those for user memory name the page that user says they own. */
  ghost predicate LeafDown(ram: map<nat, Page>, sh: Shape, user: map<nat, Place>)
  {
    forall p: nat, k: nat {:trigger Word(ram, p, k)} | InTable(sh, p, k) && V(Word(ram, p, k)) ::
      && IsLeaf(Word(ram, p, k))
      && (VpnOf(sh, p, k) < TRAPFRAME_VPN ==>
            Ppn(Word(ram, p, k)) in user && user[Ppn(Word(ram, p, k))] == Place(p, k))
  }

  /** Every user page is mapped where user says. */
  ghost predicate LeafUp(ram: map<nat, Page>, sh: Shape, user: map<nat, Place>)
  {
    forall u | u in user ::
      && InTable(sh, user[u].table, user[u].slot)
      && VpnOf(sh, user[u].table, user[u].slot) < TRAPFRAME_VPN
      && Child(ram, user[u].table, user[u].slot) == u
  }

  ghost predicate Leaves(ram: map<nat, Page>, sh: Shape, user: map<nat, Place>)
  {
    LeafDown(ram, sh, user) && LeafUp(ram, sh, user)
  }

  ghost predicate SameWords(ram: map<nat, Page>, ram': map<nat, Page>, sh: Shape)
  {
    forall p: nat, k: nat {:trigger Word(ram', p, k)} | p in sh :: Word(ram', p, k) == Word(ram, p, k)
  }

  lemma LeavesElsewhere(ram: map<nat, Page>, ram': map<nat, Page>, sh: Shape, user: map<nat, Place>)
    requires Leaves(ram, sh, user) && SameWords(ram, ram', sh)
    ensures Leaves(ram', sh, user)
  {
    hide V;
    hide IsLeaf;
    hide Ppn;
    hide Word;
  }

  lemma LeavesAddTable(ram: map<nat, Page>, sh: Shape, user: map<nat, Place>, p: nat, k: nat, c: nat,
                       ram': map<nat, Page>, sh': Shape)
    requires Leaves(ram, sh, user) && p in sh && sh[p].level > 0 && c !in sh && ZeroPage(ram, c)
    requires sh' == Hang(sh, p, k, c)
    requires RamOk(ram) && p in ram && k < 512 && ram' == Stored(ram, p, k, 1024 * c + 1)
    ensures Leaves(ram', sh', user)
  {
    StoredWords(ram, p, k, 1024 * c + 1);
    Pointer(c);
    hide V;
    hide IsLeaf;
    hide Ppn;
    hide Word;
    hide Stored;
    forall q: nat, j: nat {:trigger Word(ram', q, j)} | InTable(sh', q, j) && V(Word(ram', q, j))
      ensures InTable(sh, q, j) && Word(ram', q, j) == Word(ram, q, j) && VpnOf(sh', q, j) == VpnOf(sh, q, j)
    {
    }
  }

  /** An entry for user page c, mapped nowhere so far, is written into a free slot. */
  lemma LeavesMap(ram: map<nat, Page>, sh: Shape, user: map<nat, Place>, t: nat, k: nat, w: nat,
                  ram': map<nat, Page>, user': map<nat, Place>)
    requires Leaves(ram, sh, user) && InTable(sh, t, k) && !V(Word(ram, t, k))
    requires RamOk(ram) && t in ram && ram' == Stored(ram, t, k, w) && V(w) && IsLeaf(w)
    requires if VpnOf(sh, t, k) < TRAPFRAME_VPN then Ppn(w) !in user && user' == user[Ppn(w) := Place(t, k)]
             else user' == user
    requires 0 !in user
    ensures Leaves(ram', sh, user')
  {
    StoredWords(ram, t, k, w);
    hide V;
    hide IsLeaf;
    hide Ppn;
    hide Word;
    hide Stored;
  }

  /** An entry is cleared and the user page behind it, if any, given up. */
  lemma LeavesUnmap(ram: map<nat, Page>, sh: Shape, user: map<nat, Place>, t: nat, k: nat,
                    ram': map<nat, Page>, user': map<nat, Place>)
    requires Leaves(ram, sh, user) && InTable(sh, t, k) && V(Word(ram, t, k))
    requires forall q: nat, j: nat {:trigger Word(ram', q, j)} | q in sh ::
               Word(ram', q, j) == if q == t && j == k then 0 else Word(ram, q, j)
    requires user' == if VpnOf(sh, t, k) < TRAPFRAME_VPN then user - {Ppn(Word(ram, t, k))} else user
    ensures Leaves(ram', sh, user')
  {
    assert !V(0);
    hide V;
    hide IsLeaf;
    hide Ppn;
    hide Word;
  }
}
