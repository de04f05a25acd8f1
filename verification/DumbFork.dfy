/** The eager fork of user/dumbfork.c, page by page and byte by byte: it is the CopyPage step that
    CowFork takes as its specification. */
module DumbFork {
  import opened Mmu
  import opened CowFork

  /** Page number of UTEMP (0x400000). */
  const UTEMP := 0x400
  /** Page number of UTEXT (0x800000). */
  const UTEXT := 0x800

  type Space = map<nat, nat>

  function MapAt(ss: map<nat, Space>, e: nat, pn: nat, f: nat): map<nat, Space>
    requires e in ss
  {
    var space: Space := ss[e];
    ss[e := space[pn := f]]
  }

  predicate Backed(mem: map<nat, Page>, ss: map<nat, Space>) {
    forall e, p :: e in ss && p in ss[e] ==> ss[e][p] in mem && |mem[ss[e][p]]| == PGSIZE
  }

  /** No address space maps the frame. */
  predicate Unused(ss: map<nat, Space>, f: nat) {
    forall e, p :: e in ss && p in ss[e] ==> ss[e][p] != f
  }

  /** What an environment reads, the scratch page UTEMP aside. */
  function ViewOf(mem: map<nat, Page>, ss: map<nat, Space>, e: nat): map<nat, Page>
    requires Backed(mem, ss) && e in ss
  {
    map p | p in ss[e] && p != UTEMP :: mem[ss[e][p]]
  }

  function Views(mem: map<nat, Page>, ss: map<nat, Space>): Spaces
    requires Backed(mem, ss)
  {
    map e | e in ss :: ViewOf(mem, ss, e)
  }

  /** `e` has given up the scratch page. */
  function Dropped(ss: map<nat, Space>, e: nat): map<nat, Space>
    requires e in ss
  {
    var space: Space := ss[e] - {UTEMP};
    ss[e := space]
  }

  lemma DropNothing(ss: map<nat, Space>, e: nat)
    requires e in ss && UTEMP !in ss[e]
    ensures Dropped(ss, e) == ss
  {
    assert ss[e] - {UTEMP} == ss[e];
  }

  lemma DropBacked(mem: map<nat, Page>, ss: map<nat, Space>, e: nat)
    requires Backed(mem, ss) && e in ss
    ensures Backed(mem, Dropped(ss, e))
  {
  }

  /** Nobody sees the scratch page go. */
  lemma DropUnseen(mem: map<nat, Page>, ss: map<nat, Space>, e: nat)
    requires Backed(mem, ss) && e in ss
    ensures Backed(mem, Dropped(ss, e)) && Views(mem, Dropped(ss, e)) == Views(mem, ss)
  {
    hide Backed, ViewOf;
    DropBacked(mem, ss, e);
    forall e2 | e2 in ss ensures ViewOf(mem, Dropped(ss, e), e2) == ViewOf(mem, ss, e2) {
      DropView(mem, ss, e, e2);
    }
  }

  lemma DropView(mem: map<nat, Page>, ss: map<nat, Space>, e: nat, e2: nat)
    requires e in ss && e2 in ss && Backed(mem, ss) && Backed(mem, Dropped(ss, e))
    ensures ViewOf(mem, Dropped(ss, e), e2) == ViewOf(mem, ss, e2)
  {
    assert e2 != e ==> Dropped(ss, e)[e2] == ss[e2];
  }

  lemma MappedFrame(mem: map<nat, Page>, ss: map<nat, Space>, e: nat, pn: nat, f: nat)
    requires Backed(mem, ss) && Unused(ss, f) && e in ss && pn in ss[e]
    ensures ss[e][pn] in mem && ss[e][pn] != f
  {
  }

  lemma DropUnused(ss: map<nat, Space>, e: nat, f: nat)
    requires e in ss && Unused(ss, f)
    ensures Unused(Dropped(ss, e), f)
  {
  }

  lemma CopyBacked(mem: map<nat, Page>, ss: map<nat, Space>, parent: nat, child: nat, pn: nat, f: nat)
    requires Backed(mem, ss) && parent in ss && child in ss && Unused(ss, f)
    requires pn in ss[parent] && pn !in ss[child] && pn != UTEMP
    ensures Backed(mem[f := mem[ss[parent][pn]]], MapAt(ss, child, pn, f))
  {
  }

  /** A copy of a page in an unused frame, seen from every environment. */
  lemma CopySeen(mem: map<nat, Page>, ss: map<nat, Space>, parent: nat, child: nat, pn: nat, f: nat)
    requires Backed(mem, ss) && parent in ss && child in ss && Unused(ss, f)
    requires pn in ss[parent] && pn !in ss[child] && pn != UTEMP
    ensures var mem2, ss2 := mem[f := mem[ss[parent][pn]]], MapAt(ss, child, pn, f);
      && Backed(mem2, ss2) && EagerEnabled(Views(mem, ss), CopyPage(parent, child, pn))
      && Views(mem2, ss2) == EagerApply(Views(mem, ss), CopyPage(parent, child, pn))
  {
    CopyBacked(mem, ss, parent, child, pn, f);
    forall e | e in ss ensures CopyView(mem, ss, parent, child, pn, f, e) {
      CopyViewed(mem, ss, parent, child, pn, f, e);
    }
    assert pn in ViewOf(mem, ss, parent) && ViewOf(mem, ss, parent)[pn] == mem[ss[parent][pn]];
    assert pn !in ViewOf(mem, ss, child);
    hide Backed, Unused, ViewOf;
  }

  ghost predicate CopyView(mem: map<nat, Page>, ss: map<nat, Space>, parent: nat, child: nat, pn: nat, f: nat, e: nat) {
    && parent in ss && child in ss && e in ss && pn in ss[parent] && ss[parent][pn] in mem
    && var mem2, ss2 := mem[f := mem[ss[parent][pn]]], MapAt(ss, child, pn, f);
    && Backed(mem, ss) && Backed(mem2, ss2)
    && ViewOf(mem2, ss2, e) == if e == child then ViewOf(mem, ss, e)[pn := mem[ss[parent][pn]]] else ViewOf(mem, ss, e)
  }

  lemma CopyViewed(mem: map<nat, Page>, ss: map<nat, Space>, parent: nat, child: nat, pn: nat, f: nat, e: nat)
    requires Backed(mem, ss) && parent in ss && child in ss && Unused(ss, f) && e in ss
    requires pn in ss[parent] && pn !in ss[child] && pn != UTEMP
    ensures CopyView(mem, ss, parent, child, pn, f, e)
  {
    CopyBacked(mem, ss, parent, child, pn, f);
    assert e != child ==> MapAt(ss, child, pn, f)[e] == ss[e];
  }

  // ----- All the pages -----

  /** The pages that dumbfork copies, in order: from UTEXT up to `end`, and the stack. */
  function Pages(end: nat, stack: nat): seq<nat>
    requires UTEXT <= end
  {
    seq(end - UTEXT, i => UTEXT + i) + [stack]
  }

  /** The pages are all in the parent and none of them is in the child yet. */
  predicate CanCopy(i: Spaces, parent: nat, child: nat, pages: seq<nat>) {
    && parent in i && child in i && parent != child
    && (forall k :: 0 <= k < |pages| ==> pages[k] in i[parent] && pages[k] !in i[child])
    && (forall k, l :: 0 <= k < l < |pages| ==> pages[k] != pages[l])
  }

  /** The eager copies, one after the other. */
  function CopyAll(i: Spaces, parent: nat, child: nat, pages: seq<nat>): (j: Spaces)
    requires CanCopy(i, parent, child, pages)
    ensures child in j && j == i[child := j[child]]
    ensures forall p :: p in j[child] <==> p in i[child] || p in pages
  {
    if pages == [] then i
    else
      var before := CopyAll(i, parent, child, pages[..|pages| - 1]);
      assert pages == pages[..|pages| - 1] + [pages[|pages| - 1]];
      EagerApply(before, CopyPage(parent, child, pages[|pages| - 1]))
  }

  /** The child reads in every copied page what the parent reads there. */
  lemma {:induction false} CopiesAreEqual(i: Spaces, parent: nat, child: nat, pages: seq<nat>, k: nat)
    requires CanCopy(i, parent, child, pages) && k < |pages|
    ensures pages[k] in CopyAll(i, parent, child, pages)[child]
    ensures CopyAll(i, parent, child, pages)[child][pages[k]] == i[parent][pages[k]]
    decreases |pages|
  {
    assert pages[k] in pages;
    if k < |pages| - 1 {
      CopiesAreEqual(i, parent, child, pages[..|pages| - 1], k);
    }
  }

  lemma CopyStep(i: Spaces, parent: nat, child: nat, pages: seq<nat>, k: nat)
    requires CanCopy(i, parent, child, pages) && k < |pages|
    ensures CanCopy(i, parent, child, pages[..k]) && CanCopy(i, parent, child, pages[..k + 1])
    ensures var j := CopyAll(i, parent, child, pages[..k]);
      EagerEnabled(j, CopyPage(parent, child, pages[k])) &&
      CopyAll(i, parent, child, pages[..k + 1]) == EagerApply(j, CopyPage(parent, child, pages[k]))
  {
    assert pages[..k + 1][..k] == pages[..k];
  }

  /** After `k` copies: the child maps the first `k` frames, and nobody maps the others. */
  predicate Placed(ss0: map<nat, Space>, ss: map<nat, Space>, child: nat, pages: seq<nat>, frames: seq<nat>, k: nat) {
    && child in ss && child in ss0 && ss == ss0[child := ss[child]] && k <= |frames| && |pages| == |frames|
    && (forall i :: k <= i < |frames| ==> Unused(ss, frames[i]))
    && (forall p :: p in ss[child] ==> p in pages[..k] && ss[child][p] in frames)
  }

  lemma PlaceStep(ss0: map<nat, Space>, ss: map<nat, Space>, child: nat, pages: seq<nat>, frames: seq<nat>, k: nat)
    requires Placed(ss0, ss, child, pages, frames, k) && k < |frames|
    requires forall i, j :: 0 <= i < j < |frames| ==> frames[i] != frames[j]
    ensures Placed(ss0, MapAt(ss, child, pages[k], frames[k]), child, pages, frames, k + 1)
    ensures Unused(ss, frames[k])
    ensures (forall i, j :: 0 <= i < j < |pages| ==> pages[i] != pages[j]) ==> pages[k] !in ss[child]
  {
    var ss2 := MapAt(ss, child, pages[k], frames[k]);
    assert pages[..k + 1] == pages[..k] + [pages[k]];
    forall i | k + 1 <= i < |frames| ensures Unused(ss2, frames[i]) {
      assert Unused(ss, frames[i]);
    }
  }

  lemma PagesCanCopy(mem: map<nat, Page>, ss: map<nat, Space>, parent: nat, child: nat, end: nat, stack: nat)
    requires Backed(mem, ss) && parent in ss && child in ss && parent != child && ss[child] == map[]
    requires UTEXT <= end <= stack && stack in ss[parent] && forall p :: UTEXT <= p < end ==> p in ss[parent]
    ensures CanCopy(Views(mem, ss), parent, child, Pages(end, stack))
  {
  }

  /** Every page of `to` reads as the same page of `from` did. */
  ghost predicate SamePages(mem0: map<nat, Page>, from: Space, mem: map<nat, Page>, to: Space) {
    forall p :: p in to ==> p in from && from[p] in mem0 && to[p] in mem && mem[to[p]] == mem0[from[p]]
  }

  /** What the eager copies come to, in frames and bytes. */
  lemma ChildReads(mem0: map<nat, Page>, ss0: map<nat, Space>, mem: map<nat, Page>, ss: map<nat, Space>,
                   parent: nat, child: nat, end: nat, stack: nat)
    requires Backed(mem0, ss0) && Backed(mem, ss) && UTEXT <= end && UTEXT <= stack && child in ss && parent in ss0
    requires CanCopy(Views(mem0, ss0), parent, child, Pages(end, stack))
    requires Views(mem, ss) == CopyAll(Views(mem0, ss0), parent, child, Pages(end, stack))
    requires forall p :: p in ss[child] ==> p in Pages(end, stack)
    ensures forall p :: p in ss[child] <==> 0x800 <= p < end || p == stack
    ensures SamePages(mem0, ss0[parent], mem, ss[child])
  {
    var pages, i := Pages(end, stack), Views(mem0, ss0);
    forall p | 0x800 <= p < end || p == stack
      ensures p in ss[child] && p in ss0[parent]
      ensures mem[ss[child][p]] == mem0[ss0[parent][p]]
    {
      var k: nat := if p < end then p - UTEXT else end - UTEXT;
      assert pages[k] == p && p in pages;
      CopiesAreEqual(i, parent, child, pages, k);
      assert p in ViewOf(mem, ss, child) && p in ViewOf(mem0, ss0, parent);
    }
  }

  /** Frames and address spaces, as the system calls change them. */
  class Machine {
    var mem: map<nat, Page>
    var spaces: map<nat, Space>

    constructor ()
      ensures Valid() && spaces == map[]
    {
      mem, spaces := map[], map[];
    }

    ghost predicate Valid()
      reads this
    {
      Backed(mem, spaces)
    }

    /** sys_page_alloc, where page_alloc gives frame `f`. */
    method PageAlloc(e: nat, pn: nat, f: nat)
      requires Valid() && e in spaces && Unused(spaces, f)
      modifies this
      ensures Valid() && mem == old(mem)[f := ZeroPage()] && spaces == MapAt(old(spaces), e, pn, f)
    {
      mem := mem[f := ZeroPage()];
      spaces := MapAt(spaces, e, pn, f);
    }

    /** sys_page_map. */
    method PageMap(e: nat, pn: nat, e2: nat, pn2: nat)
      requires Valid() && e in spaces && pn in spaces[e] && e2 in spaces
      modifies this
      ensures Valid() && mem == old(mem) && spaces == MapAt(old(spaces), e2, pn2, old(spaces)[e][pn])
    {
      spaces := MapAt(spaces, e2, pn2, spaces[e][pn]);
    }

    /** sys_page_unmap. */
    method PageUnmap(e: nat, pn: nat)
      requires Valid() && e in spaces
      modifies this
      ensures Valid() && mem == old(mem) && spaces == old(spaces)[e := old(spaces)[e] - {pn}]
    {
      spaces := spaces[e := spaces[e] - {pn}];
    }

    /** memmove of one page to another, through the mappings of environment `e`. */
    method CopyBytes(e: nat, to: nat, from: nat)
      requires Valid() && e in spaces && to in spaces[e] && from in spaces[e] && spaces[e][to] != spaces[e][from]
      modifies this
      ensures Valid() && spaces == old(spaces) && mem == old(mem)[spaces[e][to] := old(mem)[spaces[e][from]]]
    {
      var dst, src := spaces[e][to], spaces[e][from];
      var i := 0;
      while i < PGSIZE
        invariant 0 <= i <= PGSIZE && Valid() && spaces == old(spaces)
        invariant dst in mem && |mem[dst]| == PGSIZE && mem == old(mem)[dst := mem[dst]]
        invariant mem[dst][..i] == mem[src][..i]
      {
        var page: Page := mem[dst];
        mem := mem[dst := page[i := mem[src][i]]];
        i := i + 1;
      }
      assert mem[dst] == mem[src];
    }

    /** duppage: page `pn` of `parent` is copied to a frame of its own in `child`. What `parent` had at UTEMP is
        gone. */
    method Duppage(parent: nat, child: nat, pn: nat, f: nat)
      requires Valid() && parent in spaces && child in spaces && parent != child && Unused(spaces, f)
      requires pn in spaces[parent] && pn !in spaces[child] && pn != UTEMP
      modifies this
      ensures Valid() && spaces == MapAt(Dropped(old(spaces), parent), child, pn, f)
      ensures Views(mem, spaces) == EagerApply(Views(old(mem), old(spaces)), CopyPage(parent, child, pn))
    {
      hide Views, Backed, Unused, EagerApply, EagerEnabled;
      ghost var left := Dropped(spaces, parent);
      MappedFrame(mem, spaces, parent, pn, f);
      DropUnseen(mem, spaces, parent);
      DropUnused(spaces, parent, f);
      CopySeen(mem, left, parent, child, pn, f);
      PageAlloc(child, pn, f);
      PageMap(child, pn, parent, UTEMP);
      CopyBytes(parent, UTEMP, pn);
      PageUnmap(parent, UTEMP);
      assert spaces[parent] == left[parent];
      assert spaces == MapAt(left, child, pn, f);
      assert mem == old(mem)[f := old(mem)[old(spaces)[parent][pn]]];
    }

    /** One of the copies of dumbfork: the `k`-th. */
    method CopyNext(parent: nat, child: nat, frames: seq<nat>, k: nat,
                    ghost pages: seq<nat>, ghost before: Spaces, ghost ss0: map<nat, Space>, pn: nat)
      requires k < |pages| && pn == pages[k] && parent != child
      requires CopiedSoFar(parent, child, frames, k, pages, before, ss0)
      modifies this
      ensures CopiedSoFar(parent, child, frames, k + 1, pages, before, ss0) && UTEMP !in spaces[parent]
    {
      ghost var left := Dropped(spaces, parent);
      CopyStep(before, parent, child, pages, k);
      PlaceStep(ss0, left, child, pages, frames, k);
      assert left[parent] == ss0[parent] && pages[k] in pages && left[child] == spaces[child];
      hide Views, CopyAll, CanCopy, Unused, Backed, EagerApply, Placed;
      Duppage(parent, child, pn, frames[k]);
      DropNothing(spaces, parent);
    }

    /** The first `k` pages have been copied, to the first `k` frames; nothing else has changed. */
    ghost predicate CopiedSoFar(parent: nat, child: nat, frames: seq<nat>, k: nat,
                                pages: seq<nat>, before: Spaces, ss0: map<nat, Space>)
      reads this
    {
      && Valid() && CanCopy(before, parent, child, pages) && k <= |pages| && CanCopy(before, parent, child, pages[..k])
      && Views(mem, spaces) == CopyAll(before, parent, child, pages[..k])
      && parent in spaces && child in spaces && Placed(ss0, Dropped(spaces, parent), child, pages, frames, k)
      && (forall i :: k <= i < |frames| ==> Unused(spaces, frames[i]))
      && parent in ss0 && UTEMP !in ss0[parent] && UTEMP !in pages && (forall p :: p in pages ==> p in ss0[parent])
      && (forall i, j :: 0 <= i < j < |frames| ==> frames[i] != frames[j])
      && (forall i, j :: 0 <= i < j < |pages| ==> pages[i] != pages[j])
    }

    /** dumbfork, after sys_exofork has made `child` without pages: each page is copied to a frame of its own, which
        page_alloc gives. What any environment reads is what the eager copies make it. */
    method Dumbfork(parent: nat, child: nat, end: nat, stack: nat, frames: seq<nat>)
      requires Valid() && parent in spaces && child in spaces && parent != child && spaces[child] == map[]
      requires UTEXT <= end <= stack && |frames| == end - UTEXT + 1
      requires forall i, j :: 0 <= i < j < |frames| ==> frames[i] != frames[j]
      requires forall i :: 0 <= i < |frames| ==> Unused(spaces, frames[i])
      requires stack in spaces[parent] && forall p :: UTEXT <= p < end ==> p in spaces[parent]
      modifies this
      ensures Valid() && CanCopy(Views(old(mem), old(spaces)), parent, child, Pages(end, stack))
      ensures Views(mem, spaces) == CopyAll(Views(old(mem), old(spaces)), parent, child, Pages(end, stack))
      ensures child in spaces && spaces == Dropped(old(spaces), parent)[child := spaces[child]]
      ensures forall p :: p in spaces[child] ==> spaces[child][p] in frames
      ensures forall p :: p in spaces[child] <==> 0x800 <= p < end || p == stack
      ensures SamePages(old(mem), old(spaces)[parent], mem, spaces[child])
    {
      hide CopiedSoFar, Views, CopyAll, CanCopy, Unused, Backed, Placed;
      ghost var pages, before, ss0 := Pages(end, stack), Views(mem, spaces), Dropped(spaces, parent);
      CopyStart(parent, child, end, stack, frames);
      var pn := UTEXT;
      while pn < end
        invariant UTEXT <= pn <= end
        invariant CopiedSoFar(parent, child, frames, pn - UTEXT, pages, before, ss0)
      {
        CopyNext(parent, child, frames, pn - UTEXT, pages, before, ss0, pn);
        pn := pn + 1;
      }
      CopyNext(parent, child, frames, end - UTEXT, pages, before, ss0, stack);
      CopiedAll(parent, child, frames, pages, before, ss0);
      ChildReads(old(mem), old(spaces), mem, spaces, parent, child, end, stack);
    }

    lemma CopyStart(parent: nat, child: nat, end: nat, stack: nat, frames: seq<nat>)
      requires Valid() && parent in spaces && child in spaces && parent != child && spaces[child] == map[]
      requires UTEXT <= end <= stack && |frames| == end - UTEXT + 1
      requires forall i, j :: 0 <= i < j < |frames| ==> frames[i] != frames[j]
      requires forall i :: 0 <= i < |frames| ==> Unused(spaces, frames[i])
      requires stack in spaces[parent] && forall p :: UTEXT <= p < end ==> p in spaces[parent]
      ensures CopiedSoFar(parent, child, frames, 0, Pages(end, stack), Views(mem, spaces), Dropped(spaces, parent))
      ensures CanCopy(Views(mem, spaces), parent, child, Pages(end, stack))
    {
      hide Views, Backed, Unused;
      var pages, before := Pages(end, stack), Views(mem, spaces);
      PagesCanCopy(mem, spaces, parent, child, end, stack);
      forall i | 0 <= i < |frames| ensures Unused(Dropped(spaces, parent), frames[i]) {
        DropUnused(spaces, parent, frames[i]);
      }
      DropUnseen(mem, spaces, parent);
      assert pages[..0] == [];
    }

    lemma CopiedAll(parent: nat, child: nat, frames: seq<nat>, pages: seq<nat>, before: Spaces, ss0: map<nat, Space>)
      requires CopiedSoFar(parent, child, frames, |pages|, pages, before, ss0) && UTEMP !in spaces[parent]
      ensures Valid() && CanCopy(before, parent, child, pages)
      ensures Views(mem, spaces) == CopyAll(before, parent, child, pages)
      ensures child in spaces && spaces == ss0[child := spaces[child]]
      ensures forall p :: p in spaces[child] ==> p in pages && spaces[child][p] in frames
    {
      assert pages[..|pages|] == pages;
      DropNothing(spaces, parent);
    }
  }
}
