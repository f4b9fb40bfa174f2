/**
 * Which page-table pages lie below a table, and how freewalk's loop takes
 * them away slot by slot (kernel/vm.c).
 */
module Teardown {
  import opened Pages
  import opened PageTable

  /** Table c is p or lies below it. */
  ghost predicate Under(sh: Shape, p: nat, c: nat)
  {
    c == p || UnderSlot(sh, p, 512, c)
  }

  ghost predicate IsChild(sh: Shape, p: nat, c: nat)
  {
    c in sh && sh[c].level < 2 && sh[c].parent == p
  }

  /** Table c lies below one of the first i slots of p. */
  ghost predicate UnderSlot(sh: Shape, p: nat, i: nat, c: nat)
  {
    || (IsChild(sh, p, c) && sh[c].slot < i)
    || (c in sh && sh[c].level == 0 && IsChild(sh, p, sh[c].parent) && sh[sh[c].parent].slot < i)
  }

  /** The tables in gone were freed; apart from them and table but nothing changed. */
  ghost predicate Torn(ram: map<nat, Page>, use: map<nat, Use>, sh: Shape,
                       ram': map<nat, Page>, use': map<nat, Use>, sh': Shape, gone: iset<nat>, but: nat)
  {
    && (forall c {:trigger c in sh'} :: c in sh' <==> c in sh && c !in gone)
    && (forall c {:trigger sh'[c]} | c in sh' :: sh'[c] == sh[c])
    && use'.Keys == use.Keys == ram.Keys == ram'.Keys
    && (forall c {:trigger use'[c]} | c in use' :: use'[c] == if c in gone then Free else use[c])
    && (forall c {:trigger ram'[c]} | c in ram' && c !in gone && c != but :: ram'[c] == ram[c])
  }

  ghost function Subtree(sh: Shape, p: nat): iset<nat>
  {
    iset c: nat | c in sh && Under(sh, p, c)
  }

  ghost function Slots(sh: Shape, p: nat, i: nat): iset<nat>
  {
    iset c: nat | UnderSlot(sh, p, i, c)
  }

  /** No last-level table in the subtree has a valid entry. */
  ghost predicate NoLeaf(ram: map<nat, Page>, sh: Shape, p: nat)
  {
    forall c: nat, k: nat {:trigger Word(ram, c, k)} | Under(sh, p, c) && InTable(sh, c, k) :: !V(Word(ram, c, k))
  }

  ghost predicate Parents(sh: Shape)
  {
    && (forall c | c in sh :: sh[c].level <= 2)
    && (forall c {:trigger sh[c].parent} | c in sh && sh[c].level < 2 ::
          sh[c].parent in sh && sh[sh[c].parent].level == sh[c].level + 1 && sh[c].slot < 512)
  }

  /** What is left of sh0 after the first i slots of p. */
  ghost predicate Rest(sh0: Shape, sh: Shape, p: nat, i: nat)
  {
    && (forall c {:trigger c in sh} :: c in sh <==> c in sh0 && c !in Slots(sh0, p, i))
    && (forall c {:trigger sh[c]} | c in sh :: sh[c] == sh0[c])
  }

  lemma TreeParents(ram: map<nat, Page>, sh: Shape, loose: set<nat>)
    requires Tree(ram, sh, loose)
    ensures Parents(sh)
  {
    hide V;
    hide Ppn;
    hide IsLeaf;
    hide Word;
    hide Down;
  }

  lemma NoSlots(sh: Shape, p: nat)
    ensures Slots(sh, p, 0) == iset{} && Rest(sh, sh, p, 0)
  {
  }

  lemma HungAt(ram: map<nat, Page>, sh: Shape, loose: set<nat>, d: nat)
    requires Tree(ram, sh, loose) && d in sh && sh[d].level < 2
    ensures Child(ram, sh[d].parent, sh[d].slot) == d && V(Word(ram, sh[d].parent, sh[d].slot)) && d != 0
  {
    hide V;
    hide Ppn;
    hide IsLeaf;
    hide Word;
    hide Down;
    assert sh[d].parent in sh;
  }

  /** The child of p above c, for c in the subtree of slot i. */
  lemma Via(sh0: Shape, p: nat, i: nat, c: nat) returns (d: nat)
    requires UnderSlot(sh0, p, i + 1, c) && !UnderSlot(sh0, p, i, c)
    ensures IsChild(sh0, p, d) && sh0[d].slot == i
    ensures c == d || (c in sh0 && sh0[c].level == 0 && sh0[c].parent == d)
  {
    d := if IsChild(sh0, p, c) && sh0[c].slot == i then c else sh0[c].parent;
  }

  lemma ChildStays(sh0: Shape, sh: Shape, p: nat, i: nat, d: nat)
    requires Parents(sh0) && Rest(sh0, sh, p, i) && p in sh0 && IsChild(sh0, p, d) && sh0[d].slot >= i
    ensures d in sh && sh[d] == sh0[d]
  {
    assert sh0[d].parent == p;
  }

  /** Nothing hangs from a slot that is not valid. */
  lemma SkipSlot(ram: map<nat, Page>, sh: Shape, loose: set<nat>, sh0: Shape, p: nat, i: nat)
    requires Tree(ram, sh, loose) && i < 512 && !V(Word(ram, p, i))
    requires Parents(sh0) && Rest(sh0, sh, p, i) && p in sh0
    ensures Slots(sh0, p, i + 1) == Slots(sh0, p, i)
  {
    hide V;
    hide Tree;
    hide Word;
    hide Rest;
    forall c: nat
      ensures UnderSlot(sh0, p, i + 1, c) ==> UnderSlot(sh0, p, i, c)
    {
      if UnderSlot(sh0, p, i + 1, c) && !UnderSlot(sh0, p, i, c) {
        var d := Via(sh0, p, i, c);
        ChildStays(sh0, sh, p, i, d);
        HungAt(ram, sh, loose, d);
      }
    }
  }

  /** The subtree of the child at slot i is what that slot adds. */
  lemma TakeSlot(sh0: Shape, sh: Shape, p: nat, i: nat, d: nat, c: nat)
    requires Parents(sh0) && Rest(sh0, sh, p, i) && p in sh0 && i < 512
    requires IsChild(sh, p, d) && sh[d].slot == i
    requires forall e | IsChild(sh, p, e) && sh[e].slot == i :: e == d
    ensures c in Slots(sh0, p, i + 1) <==> c in Slots(sh0, p, i) || c in Subtree(sh, d)
  {
    if c in Slots(sh0, p, i + 1) && c !in Slots(sh0, p, i) {
      var e := Via(sh0, p, i, c);
      ChildStays(sh0, sh, p, i, e);
      assert c in sh;
    }
    if c in Subtree(sh, d) {
      assert c in sh && sh[c] == sh0[c];
    }
  }

  /** freewalk is at slot i of table p; the tables above p are loose. */
  ghost predicate Walking(ram0: map<nat, Page>, use0: map<nat, Use>, sh0: Shape,
                          ram: map<nat, Page>, use: map<nat, Use>, sh: Shape, p: nat, i: nat, loose: set<nat>)
  {
    && Tree(ram, sh, loose + {p})
    && Torn(ram0, use0, sh0, ram, use, sh, Slots(sh0, p, i), p)
    && p in sh && p in sh0
    && (forall k: nat {:trigger Word(ram, p, k)} | i <= k :: Word(ram, p, k) == Word(ram0, p, k))
  }

  /** What freewalk asks of the tables. */
  ghost predicate Ready(ram: map<nat, Page>, sh: Shape, p: nat, loose: set<nat>)
  {
    && Tree(ram, sh, loose) && p in sh && p !in loose
    && (sh[p].level < 2 ==> sh[p].parent in loose)
    && (forall q | q in loose :: q in sh && sh[q].level > sh[p].level)
    && NoLeaf(ram, sh, p)
  }

  lemma StartWalking(ram: map<nat, Page>, use: map<nat, Use>, sh: Shape, p: nat, loose: set<nat>)
    requires Tree(ram, sh, loose) && p in sh && use.Keys == ram.Keys
    ensures Walking(ram, use, sh, ram, use, sh, p, 0, loose) && Parents(sh)
  {
    hide V;
    hide Ppn;
    hide IsLeaf;
    hide Word;
    NoSlots(sh, p);
    TreeParents(ram, sh, loose);
    hide Parents;
    hide Slots;
  }

  lemma TornRest(ram0: map<nat, Page>, use0: map<nat, Use>, sh0: Shape,
                 ram: map<nat, Page>, use: map<nat, Use>, sh: Shape, p: nat, i: nat, but: nat)
    requires Torn(ram0, use0, sh0, ram, use, sh, Slots(sh0, p, i), but)
    ensures Rest(sh0, sh, p, i)
  {
    hide Slots;
  }

  /** A valid entry seen by freewalk leads to a child that is ready in its turn. */
  lemma AtChild(ram0: map<nat, Page>, use0: map<nat, Use>, sh0: Shape,
                ram: map<nat, Page>, use: map<nat, Use>, sh: Shape, p: nat, i: nat, loose: set<nat>, w: nat)
    requires Ready(ram0, sh0, p, loose) && Parents(sh0) && i < 512
    requires Walking(ram0, use0, sh0, ram, use, sh, p, i, loose)
    requires w == Word(ram, p, i) && V(w)
    ensures !IsLeaf(w) && IsChild(sh, p, Ppn(w)) && sh[Ppn(w)].slot == i && sh[Ppn(w)].level < sh0[p].level
    ensures Ppn(w) !in loose && Ppn(w) != p
  {
    hide V;
    hide Ppn;
    hide IsLeaf;
    hide Hung;
    TornRest(ram0, use0, sh0, ram, use, sh, p, i, p);
    hide Torn;
    assert Word(ram0, p, i) == w;
    assert Under(sh0, p, p) && (InTable(sh0, p, i) <==> sh0[p].level == 0);
    var d := Ppn(w);
    assert Below(sh0, p, i, d);
    ChildStays(sh0, sh, p, i, d);
  }

  lemma TreeDomains(ram: map<nat, Page>, sh: Shape, loose: set<nat>)
    requires Tree(ram, sh, loose)
    ensures Domains(ram, sh)
  {
  }

  lemma UnderChild(sh0: Shape, sh: Shape, p: nat, i: nat, d: nat, c: nat)
    requires Parents(sh0) && Rest(sh0, sh, p, i) && p in sh0 && i < 512
    requires IsChild(sh, p, d) && sh[d].slot == i && Under(sh, d, c) && c in sh
    ensures Under(sh0, p, c) && c !in Slots(sh0, p, i) && c in sh0 && sh0[c] == sh[c]
  {
    assert sh[c] == sh0[c] && sh[d] == sh0[d];
  }

  lemma ChildNoLeaf(ram0: map<nat, Page>, use0: map<nat, Use>, sh0: Shape,
                    ram: map<nat, Page>, use: map<nat, Use>, sh: Shape, p: nat, i: nat, d: nat)
    requires NoLeaf(ram0, sh0, p) && Parents(sh0) && i < 512 && p in sh0 && Domains(ram, sh)
    requires Torn(ram0, use0, sh0, ram, use, sh, Slots(sh0, p, i), p)
    requires IsChild(sh, p, d) && sh[d].slot == i && sh[d].level < sh0[p].level
    ensures NoLeaf(ram, sh, d)
  {
    hide V;
    hide Under;
    hide Slots;
    TornRest(ram0, use0, sh0, ram, use, sh, p, i, p);
    hide Rest;
    forall c: nat, k: nat {:trigger Word(ram, c, k)} | Under(sh, d, c) && InTable(sh, c, k)
      ensures !V(Word(ram, c, k))
    {
      UnderChild(sh0, sh, p, i, d, c);
      assert c in ram && ram[c] == ram0[c];
      assert Word(ram, c, k) == Word(ram0, c, k);
    }
  }

  lemma ChildReady(ram0: map<nat, Page>, use0: map<nat, Use>, sh0: Shape,
                   ram: map<nat, Page>, use: map<nat, Use>, sh: Shape, p: nat, i: nat, loose: set<nat>, d: nat)
    requires Ready(ram0, sh0, p, loose) && Parents(sh0) && i < 512
    requires Walking(ram0, use0, sh0, ram, use, sh, p, i, loose)
    requires IsChild(sh, p, d) && sh[d].slot == i && sh[d].level < sh0[p].level && d !in loose && d != p
    ensures Ready(ram, sh, d, loose + {p})
  {
    hide Tree;
    hide NoLeaf;
    TreeDomains(ram, sh, loose + {p});
    ChildNoLeaf(ram0, use0, sh0, ram, use, sh, p, i, d);
    forall q | q in loose + {p}
      ensures q in sh && sh[q].level > sh[d].level
    {
      if q != p {
        assert q in sh0 && sh0[q].level > sh0[p].level;
        LooseStays(sh0, p, i, q);
        assert q in sh;
      }
    }
  }

  lemma LooseStays(sh0: Shape, p: nat, i: nat, q: nat)
    requires Parents(sh0) && p in sh0 && q in sh0 && sh0[q].level > sh0[p].level
    ensures q !in Slots(sh0, p, i)
  {
  }

  lemma NotUnder(sh: Shape, p: nat, d: nat)
    requires Parents(sh) && IsChild(sh, p, d) && p in sh
    ensures !Under(sh, d, p)
  {
    assert sh[d].parent == p;
  }

  /** Clearing a slot from which nothing hangs any more. */
  lemma ZeroSlot(ram: map<nat, Page>, sh: Shape, loose: set<nat>, p: nat, i: nat, ram': map<nat, Page>)
    requires Tree(ram, sh, loose) && p in loose && p in sh && i < 512
    requires forall e :: !(IsChild(sh, p, e) && sh[e].slot == i)
    requires p in ram && |ram[p]| == 512 && ram' == Stored(ram, p, i, 0)
    ensures Tree(ram', sh, loose)
  {
    StoredWords(ram, p, i, 0);
    hide V;
    hide Ppn;
    hide IsLeaf;
    hide Word;
    hide Stored;
    forall c {:trigger sh[c].parent} | c in sh && sh[c].level < 2
      ensures Child(ram', sh[c].parent, sh[c].slot) == c
    {
      assert !(IsChild(sh, p, c) && sh[c].slot == i);
    }
  }

  lemma TornTwice(ram0: map<nat, Page>, use0: map<nat, Use>, sh0: Shape, ram1: map<nat, Page>, use1: map<nat, Use>,
                  sh1: Shape, ram2: map<nat, Page>, use2: map<nat, Use>, sh2: Shape, ram3: map<nat, Page>,
                  gone0: iset<nat>, gone1: iset<nat>, gone: iset<nat>, p: nat, d: nat)
    requires Torn(ram0, use0, sh0, ram1, use1, sh1, gone0, p)
    requires Torn(ram1, use1, sh1, ram2, use2, sh2, gone1, d) && d in gone1
    requires forall c: nat :: c in gone <==> c in gone0 || c in gone1
    requires ram3.Keys == ram2.Keys && forall c {:trigger ram3[c]} | c in ram3 && c != p :: ram3[c] == ram2[c]
    ensures Torn(ram0, use0, sh0, ram3, use2, sh2, gone, p)
  {
    forall c {:trigger sh2[c]} | c in sh2
      ensures sh2[c] == sh0[c]
    {
      assert sh1[c] == sh0[c];
    }
    forall c {:trigger ram3[c]} | c in ram3 && c !in gone && c != p
      ensures ram3[c] == ram0[c]
    {
      assert ram2[c] == ram1[c];
    }
    forall c {:trigger use2[c]} | c in use2
      ensures use2[c] == if c in gone then Free else use0[c]
    {
      assert use1[c] == if c in gone0 then Free else use0[c];
    }
    forall c {:trigger c in sh2}
      ensures c in sh2 <==> c in sh0 && c !in gone
    {
      assert c in sh1 <==> c in sh0 && c !in gone0;
    }
  }

  lemma OnlyChild(ram: map<nat, Page>, sh: Shape, loose: set<nat>, p: nat, i: nat, d: nat)
    requires Tree(ram, sh, loose) && IsChild(sh, p, d) && sh[d].slot == i
    ensures forall e | IsChild(sh, p, e) && sh[e].slot == i :: e == d
  {
    hide Tree;
    hide Child;
    HungAt(ram, sh, loose, d);
    forall e | IsChild(sh, p, e) && sh[e].slot == i
      ensures e == d
    {
      HungAt(ram, sh, loose, e);
    }
  }

  /** The child at slot i was freed and its slot cleared. */
  lemma TakeStep(ram0: map<nat, Page>, use0: map<nat, Use>, sh0: Shape, ram1: map<nat, Page>, use1: map<nat, Use>,
                 sh1: Shape, ram2: map<nat, Page>, use2: map<nat, Use>, sh2: Shape, ram3: map<nat, Page>,
                 p: nat, i: nat, loose: set<nat>, d: nat)
    requires Parents(sh0) && Walking(ram0, use0, sh0, ram1, use1, sh1, p, i, loose) && i < 512
    requires IsChild(sh1, p, d) && sh1[d].slot == i
    requires Torn(ram1, use1, sh1, ram2, use2, sh2, Subtree(sh1, d), d) && Tree(ram2, sh2, loose + {p})
    requires p in ram2 && |ram2[p]| == 512 && ram3 == Stored(ram2, p, i, 0)
    ensures Walking(ram0, use0, sh0, ram3, use2, sh2, p, i + 1, loose)
  {
    hide Tree;
    hide Slots;
    hide Word;
    hide Parents;
    hide UnderSlot;
    OnlyChild(ram1, sh1, loose + {p}, p, i, d);
    TreeParents(ram1, sh1, loose + {p});
    NotUnder(sh1, p, d);
    assert Under(sh1, d, d) && d in Subtree(sh1, d) && p !in Subtree(sh1, d);
    TornRest(ram0, use0, sh0, ram1, use1, sh1, p, i, p);
    forall c: nat
      ensures c in Slots(sh0, p, i + 1) <==> c in Slots(sh0, p, i) || c in Subtree(sh1, d)
    {
      TakeSlot(sh0, sh1, p, i, d, c);
    }
    hide Subtree;
    hide Rest;
    SlotGone(sh1, sh2, Subtree(sh1, d), p, i, d);
    ZeroSlot(ram2, sh2, loose + {p}, p, i, ram3);
    WordsAfter(ram1, ram2, p, i, ram3);
    TornTwice(ram0, use0, sh0, ram1, use1, sh1, ram2, use2, sh2, ram3,
              Slots(sh0, p, i), Subtree(sh1, d), Slots(sh0, p, i + 1), p, d);
  }

  lemma SlotGone(sh1: Shape, sh2: Shape, gone: iset<nat>, p: nat, i: nat, d: nat)
    requires forall c {:trigger c in sh2} :: c in sh2 <==> c in sh1 && c !in gone
    requires forall c {:trigger sh2[c]} | c in sh2 :: sh2[c] == sh1[c]
    requires forall e | IsChild(sh1, p, e) && sh1[e].slot == i :: e == d
    requires d in gone
    ensures forall e :: !(IsChild(sh2, p, e) && sh2[e].slot == i)
  {
    forall e
      ensures !(IsChild(sh2, p, e) && sh2[e].slot == i)
    {
      assert IsChild(sh2, p, e) ==> IsChild(sh1, p, e) && sh1[e] == sh2[e];
    }
  }

  lemma WordsAfter(ram1: map<nat, Page>, ram2: map<nat, Page>, p: nat, i: nat, ram3: map<nat, Page>)
    requires p in ram1 && p in ram2 && ram2[p] == ram1[p] && i < |ram2[p]| && ram3 == Stored(ram2, p, i, 0)
    ensures forall k: nat {:trigger Word(ram3, p, k)} | i < k :: Word(ram3, p, k) == Word(ram1, p, k)
    ensures ram3.Keys == ram2.Keys && forall c {:trigger ram3[c]} | c in ram3 && c != p :: ram3[c] == ram2[c]
  {
  }

  /** Slot i is not valid and is passed over. */
  lemma SkipStep(ram0: map<nat, Page>, use0: map<nat, Use>, sh0: Shape, ram: map<nat, Page>, use: map<nat, Use>,
                 sh: Shape, p: nat, i: nat, loose: set<nat>)
    requires Parents(sh0) && Walking(ram0, use0, sh0, ram, use, sh, p, i, loose) && i < 512 && !V(Word(ram, p, i))
    ensures Walking(ram0, use0, sh0, ram, use, sh, p, i + 1, loose)
  {
    hide Tree;
    hide Slots;
    hide Word;
    hide V;
    hide Parents;
    TornRest(ram0, use0, sh0, ram, use, sh, p, i, p);
    SkipSlot(ram, sh, loose + {p}, sh0, p, i);
  }

  lemma DropDown(ram: map<nat, Page>, sh: Shape, loose: set<nat>, p: nat, ram': map<nat, Page>, sh': Shape)
    requires Domains(ram, sh) && Domains(ram', sh') && Down(ram, sh, loose + {p})
    requires p in sh && (sh[p].level < 2 ==> sh[p].parent in loose)
    requires SameWords(ram, ram', sh') && sh' == sh - {p}
    ensures Down(ram', sh', loose)
  {
    hide V;
    hide Ppn;
    hide IsLeaf;
    hide Word;
  }

  lemma DropHung(ram: map<nat, Page>, sh: Shape, p: nat, ram': map<nat, Page>, sh': Shape)
    requires Domains(ram, sh) && Domains(ram', sh') && Hung(ram, sh)
    requires forall e :: !IsChild(sh, p, e)
    requires SameWords(ram, ram', sh') && sh' == sh - {p}
    ensures Hung(ram', sh')
  {
    hide V;
    hide Ppn;
    hide Word;
    forall c {:trigger sh'[c].parent} | c in sh' && sh'[c].level < 2
      ensures sh'[c].parent in sh'
    {
      assert !IsChild(sh, p, c);
      assert sh[c].parent in sh;
    }
  }

  /** Removing a table from which nothing hangs. */
  lemma DropTable(ram: map<nat, Page>, sh: Shape, loose: set<nat>, p: nat, ram': map<nat, Page>, sh': Shape)
    requires Tree(ram, sh, loose + {p}) && p in sh && p !in loose
    requires sh[p].level < 2 ==> sh[p].parent in loose
    requires forall e :: !IsChild(sh, p, e)
    requires RamOk(ram') && ram'.Keys == ram.Keys && forall c {:trigger ram'[c]} | c in ram' && c != p ::
      ram'[c] == ram[c]
    requires sh' == sh - {p}
    ensures Tree(ram', sh', loose)
  {
    hide Down;
    hide Hung;
    forall q: nat, k: nat {:trigger Word(ram', q, k)} | q in sh'
      ensures Word(ram', q, k) == Word(ram, q, k)
    {
      assert ram'[q] == ram[q];
    }
    hide Word;
    DropDown(ram, sh, loose, p, ram', sh');
    DropHung(ram, sh, p, ram', sh');
  }

  lemma FinishTorn(ram0: map<nat, Page>, use0: map<nat, Use>, sh0: Shape, ram: map<nat, Page>, use: map<nat, Use>,
                   sh: Shape, p: nat, ram': map<nat, Page>, use': map<nat, Use>, sh': Shape)
    requires Torn(ram0, use0, sh0, ram, use, sh, Slots(sh0, p, 512), p) && p in sh0 && p in use
    requires ram'.Keys == ram.Keys && forall c {:trigger ram'[c]} | c in ram' && c != p :: ram'[c] == ram[c]
    requires sh' == sh - {p} && use' == use[p := Free]
    ensures Torn(ram0, use0, sh0, ram', use', sh', Subtree(sh0, p), p)
  {
    forall c: nat
      ensures c in Subtree(sh0, p) <==> c == p || c in Slots(sh0, p, 512)
    {
    }
    hide Slots;
    hide Subtree;
    forall c {:trigger use'[c]} | c in use'
      ensures use'[c] == if c in Subtree(sh0, p) then Free else use0[c]
    {
      assert c == p || use[c] == if c in Slots(sh0, p, 512) then Free else use0[c];
    }
    forall c {:trigger c in sh'}
      ensures c in sh' <==> c in sh0 && c !in Subtree(sh0, p)
    {
      assert c in sh <==> c in sh0 && c !in Slots(sh0, p, 512);
    }
  }

  lemma NoChildren(sh0: Shape, sh: Shape, p: nat)
    requires Parents(sh0) && Rest(sh0, sh, p, 512)
    ensures forall e :: !IsChild(sh, p, e)
  {
  }

  lemma ReadyTree(ram: map<nat, Page>, sh: Shape, p: nat, loose: set<nat>)
    requires Ready(ram, sh, p, loose)
    ensures Tree(ram, sh, loose) && p in sh
  {
  }

  lemma WalkedTable(ram0: map<nat, Page>, use0: map<nat, Use>, sh0: Shape,
                    ram: map<nat, Page>, use: map<nat, Use>, pos: map<nat, nat>, head: nat, sh: Shape, user: set<nat>,
                    p: nat, i: nat, loose: set<nat>)
    requires Walking(ram0, use0, sh0, ram, use, sh, p, i, loose) && Allocator(ram, use, pos, head, sh.Keys, user)
    ensures p in sh && p in use && use[p] == Table && p in ram
  {
    hide Tree;
    hide Torn;
    hide FreeList;
  }

  /** The end of freewalk. */
  lemma WalkDone(ram0: map<nat, Page>, use0: map<nat, Use>, sh0: Shape, ram: map<nat, Page>, use: map<nat, Use>,
                 sh: Shape, ram': map<nat, Page>, use': map<nat, Use>, sh': Shape, p: nat, loose: set<nat>)
    requires Ready(ram0, sh0, p, loose) && Parents(sh0) && Walking(ram0, use0, sh0, ram, use, sh, p, 512, loose)
    requires RamOk(ram') && ram'.Keys == ram.Keys && p in use
    requires forall c {:trigger ram'[c]} | c in ram' && c != p :: ram'[c] == ram[c]
    requires sh' == sh - {p} && use' == use[p := Free]
    ensures Tree(ram', sh', loose)
    ensures Torn(ram0, use0, sh0, ram', use', sh', Subtree(sh0, p), p)
  {
    hide Tree;
    hide NoLeaf;
    hide Parents;
    hide Slots;
    hide Subtree;
    TornRest(ram0, use0, sh0, ram, use, sh, p, 512, p);
    NoChildren(sh0, sh, p);
    hide Rest;
    assert sh[p] == sh0[p];
    FinishTorn(ram0, use0, sh0, ram, use, sh, p, ram', use', sh');
    hide Torn;
    DropTable(ram, sh, loose, p, ram', sh');
  }

  /** Freeing a child leaves its parent in place. */
  lemma TableStays(ram0: map<nat, Page>, use0: map<nat, Use>, sh0: Shape, ram1: map<nat, Page>, use1: map<nat, Use>,
                   sh1: Shape, ram: map<nat, Page>, use: map<nat, Use>, pos: map<nat, nat>, head: nat, sh: Shape,
                   user: set<nat>, p: nat, i: nat, loose: set<nat>, d: nat)
    requires Walking(ram0, use0, sh0, ram1, use1, sh1, p, i, loose) && IsChild(sh1, p, d)
    requires Torn(ram1, use1, sh1, ram, use, sh, Subtree(sh1, d), d)
    requires Allocator(ram, use, pos, head, sh.Keys, user)
    ensures p in ram && |ram[p]| == 512 && p in use && use[p] == Table
  {
    hide Tree;
    hide FreeList;
    TreeParents(ram1, sh1, loose + {p});
    NotUnder(sh1, p, d);
    hide Parents;
    hide Under;
    assert p in sh;
  }
}
