/**
 * Physical pages and the free list threaded through them
 * (kernel/kalloc.c).  A page is 512 64-bit words; a free page keeps the
 * address of the next free page in its first word.
 */
module Pages {
  const PGSIZE: nat := 4096
  const PHYSTOP: nat := 0x88000000

  type Page = seq<nat>

  /** Who a page belongs to. */
  datatype Use = Free | Held | Table | User

  /** PGROUNDUP(sz) / PGSIZE */
  function PageUp(sz: nat): (n: nat)
    ensures 4096 * n >= sz && 4096 * n < sz + 4096
  {
    (sz + 4095) / 4096
  }

  /** The k-th word of page p. */
  function Word(ram: map<nat, Page>, p: nat, k: nat): (w: nat)
  {
    if p in ram && k < |ram[p]| then ram[p][k] else 0
  }

  function Filled(w: nat): (page: Page)
    ensures |page| == 512
    ensures forall k | 0 <= k < 512 :: page[k] == w
  {
    seq(512, _ => w)
  }

  ghost predicate RamOk(ram: map<nat, Page>)
  {
    && 0 !in ram
    && (forall p | p in ram :: |ram[p]| == 512)
  }

  /** Store one word. */
  function Stored(ram: map<nat, Page>, p: nat, k: nat, w: nat): (r: map<nat, Page>)
    requires p in ram && k < |ram[p]|
  {
    var page: Page := ram[p][k := w];
    ram[p := page]
  }

  lemma StoredKeys(ram: map<nat, Page>, p: nat, k: nat, w: nat)
    requires p in ram && k < |ram[p]|
    ensures Stored(ram, p, k, w).Keys == ram.Keys
  {
  }

  lemma StoredWords(ram: map<nat, Page>, p: nat, k: nat, w: nat)
    requires RamOk(ram) && p in ram && k < 512
    ensures RamOk(Stored(ram, p, k, w)) && Stored(ram, p, k, w).Keys == ram.Keys
    ensures forall q: nat, j: nat {:trigger Word(Stored(ram, p, k, w), q, j)} ::
              Word(Stored(ram, p, k, w), q, j) == if q == p && j == k then w else Word(ram, q, j)
    ensures forall q | q in ram && q != p :: Stored(ram, p, k, w)[q] == ram[q]
  {
  }

  lemma PageWords(ram: map<nat, Page>, p: nat, page: Page)
    requires RamOk(ram) && p in ram && |page| == 512
    ensures RamOk(ram[p := page]) && ram[p := page].Keys == ram.Keys
    ensures forall q: nat, j: nat {:trigger Word(ram[p := page], q, j)} ::
              q != p ==> Word(ram[p := page], q, j) == Word(ram, q, j)
    ensures forall j: nat | j < 512 :: Word(ram[p := page], p, j) == page[j]
  {
  }

  /**
   * The free list: pos numbers the free pages from the end of the list,
   * and each holds the address of the one numbered just below it.
   */
  ghost predicate FreeList(ram: map<nat, Page>, pos: map<nat, nat>, head: nat)
  {
    && Names(pos, head, |pos.Keys|)
    && pos.Keys <= ram.Keys
    && (forall p | p in pos :: pos[p] < |pos.Keys|)
    && (forall p {:trigger Word(ram, p, 0)} | p in pos :: Names(pos, Word(ram, p, 0), pos[p]))
    && (forall p, q | p in pos && q in pos && pos[p] == pos[q] :: p == q)
  }

  /** Address a is the list of n pages. */
  ghost predicate Names(pos: map<nat, nat>, a: nat, n: nat)
  {
    if n == 0 then a == 0 else a % 4096 == 0 && a / 4096 in pos && pos[a / 4096] == n - 1
  }

  /** Every page has exactly one use. */
  ghost predicate Uses(ram: map<nat, Page>, use: map<nat, Use>, free: set<nat>, tables: set<nat>, user: set<nat>)
  {
    && use.Keys == ram.Keys
    && (forall p :: p in free <==> p in use && use[p] == Free)
    && (forall p :: p in tables <==> p in use && use[p] == Table)
    && (forall p :: p in user <==> p in use && use[p] == User)
  }

  ghost predicate Allocator(ram: map<nat, Page>, use: map<nat, Use>, pos: map<nat, nat>, head: nat,
                            tables: set<nat>, user: set<nat>)
  {
    RamOk(ram) && FreeList(ram, pos, head) && Uses(ram, use, pos.Keys, tables, user)
  }

  /** Changing a page that is in use does not disturb the allocator. */
  lemma Change(ram: map<nat, Page>, use: map<nat, Use>, pos: map<nat, nat>, head: nat,
               tables: set<nat>, user: set<nat>, c: nat, page: Page)
    requires Allocator(ram, use, pos, head, tables, user)
    requires c in ram && use[c] != Free && |page| == 512
    ensures Allocator(ram[c := page], use, pos, head, tables, user)
  {
    PageWords(ram, c, page);
  }

  lemma PushList(ram: map<nat, Page>, pos: map<nat, nat>, head: nat, c: nat, ram': map<nat, Page>, pos': map<nat, nat>)
    requires FreeList(ram, pos, head) && c in ram && c !in pos
    requires ram'.Keys == ram.Keys && Word(ram', c, 0) == head
    requires forall p: nat {:trigger Word(ram', p, 0)} :: p != c ==> Word(ram', p, 0) == Word(ram, p, 0)
    requires pos' == pos[c := |pos.Keys|]
    ensures FreeList(ram', pos', 4096 * c) && |pos'.Keys| == |pos.Keys| + 1
  {
    assert pos'.Keys == pos.Keys + {c};
    assert (4096 * c) / 4096 == c;
    forall p {:trigger Word(ram', p, 0)} | p in pos'
      ensures Names(pos', Word(ram', p, 0), pos'[p])
    {
      if p != c {
        assert Names(pos, Word(ram, p, 0), pos[p]);
      }
    }
  }

  lemma PopList(ram: map<nat, Page>, pos: map<nat, nat>, head: nat, c: nat, ram': map<nat, Page>, pos': map<nat, nat>)
    requires FreeList(ram, pos, head) && head != 0 && c == head / 4096
    requires ram'.Keys == ram.Keys && pos' == pos - {c}
    requires forall p: nat {:trigger Word(ram', p, 0)} :: p != c ==> Word(ram', p, 0) == Word(ram, p, 0)
    ensures FreeList(ram', pos', Word(ram, c, 0)) && |pos'.Keys| == |pos.Keys| - 1
  {
    assert pos'.Keys == pos.Keys - {c};
    assert Names(pos, Word(ram, c, 0), pos[c]);
    forall p {:trigger Word(ram', p, 0)} | p in pos'
      ensures Names(pos', Word(ram', p, 0), pos'[p])
    {
      assert Names(pos, Word(ram, p, 0), pos[p]);
    }
  }

  /** kfree's push. */
  lemma Push(ram: map<nat, Page>, use: map<nat, Use>, pos: map<nat, nat>, head: nat,
             tables: set<nat>, user: set<nat>, c: nat, page: Page)
    requires Allocator(ram, use, pos, head, tables, user)
    requires c in ram && use[c] == Held && |page| == 512 && page[0] == head
    ensures Allocator(ram[c := page], use[c := Free], pos[c := |pos.Keys|], 4096 * c, tables, user)
    ensures |pos[c := |pos.Keys|].Keys| == |pos.Keys| + 1
  {
    hide FreeList;
    PageWords(ram, c, page);
    PushList(ram, pos, head, c, ram[c := page], pos[c := |pos.Keys|]);
  }

  /** kalloc's pop; the page is filled with junk afterwards. */
  lemma Pop(ram: map<nat, Page>, use: map<nat, Use>, pos: map<nat, nat>, head: nat,
            tables: set<nat>, user: set<nat>, page: Page)
    requires Allocator(ram, use, pos, head, tables, user) && head != 0 && |page| == 512
    ensures head % 4096 == 0 && head / 4096 in ram && use[head / 4096] == Free
    ensures Allocator(ram[head / 4096 := page], use[head / 4096 := Held], pos - {head / 4096},
                      Word(ram, head / 4096, 0), tables, user)
    ensures |(pos - {head / 4096}).Keys| == |pos.Keys| - 1
  {
    Head(ram, pos, head);
    hide FreeList;
    PageWords(ram, head / 4096, page);
    PopList(ram, pos, head, head / 4096, ram[head / 4096 := page], pos - {head / 4096});
  }

  /** The list is empty exactly when no page is free. */
  lemma Head(ram: map<nat, Page>, pos: map<nat, nat>, head: nat)
    requires RamOk(ram) && FreeList(ram, pos, head)
    ensures head == 0 <==> pos.Keys == {}
    ensures head != 0 ==> head % 4096 == 0 && head / 4096 in pos && head / 4096 in ram
  {
  }

  /** A page in hand becomes a page table or a user page, or the reverse. */
  lemma Reuse(ram: map<nat, Page>, use: map<nat, Use>, pos: map<nat, nat>, head: nat,
              tables: set<nat>, user: set<nat>, c: nat, u: Use, tables': set<nat>, user': set<nat>)
    requires Allocator(ram, use, pos, head, tables, user)
    requires c in ram && use[c] != Free && u != Free
    requires tables' == if u == Table then tables + {c} else tables - {c}
    requires user' == if u == User then user + {c} else user - {c}
    ensures Allocator(ram, use[c := u], pos, head, tables', user')
  {
  }

  lemma AllocatorHead(ram: map<nat, Page>, use: map<nat, Use>, pos: map<nat, nat>, head: nat,
                      tables: set<nat>, user: set<nat>)
    requires Allocator(ram, use, pos, head, tables, user)
    ensures use.Keys == ram.Keys
    ensures head == 0 <==> pos.Keys == {}
    ensures head != 0 ==> head % 4096 == 0 && head / 4096 in ram && use[head / 4096] == Free
  {
    Head(ram, pos, head);
    hide FreeList;
  }

  lemma AllocatorRam(ram: map<nat, Page>, use: map<nat, Use>, pos: map<nat, nat>, head: nat,
                     tables: set<nat>, user: set<nat>)
    requires Allocator(ram, use, pos, head, tables, user)
    ensures RamOk(ram)
  {
  }

  /** A page table that is to be freed. */
  lemma TableReleased(ram: map<nat, Page>, use: map<nat, Use>, pos: map<nat, nat>, head: nat,
                      tables: set<nat>, user: set<nat>, p: nat)
    requires Allocator(ram, use, pos, head, tables, user) && p in use && use[p] == Table
    ensures Allocator(ram, use[p := Held], pos, head, tables - {p}, user) && p in ram
  {
    AllocatorHead(ram, use, pos, head, tables, user);
    assert p !in user;
    assert user - {p} == user;
    hide Allocator;
    Reuse(ram, use, pos, head, tables, user, p, Held, tables - {p}, user);
  }
}
