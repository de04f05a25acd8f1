/** The in-place partition of the free list in check_page_free_list (kern/pmap.c). */
module FreeListParts {
  import opened PageTables
  import opened Lists

  /** The elements of `s` below `limit` if `low`, the others if not, in order. */
  function Part(s: seq<nat>, limit: nat, low: bool): seq<nat> {
    if s == [] then []
    else
      var last := s[|s| - 1];
      Part(s[..|s| - 1], limit, low) + if (last < limit) == low then [last] else []
  }

  lemma {:induction false} PartMembers(s: seq<nat>, limit: nat, low: bool)
    ensures forall f :: f in Part(s, limit, low) <==> f in s && (f < limit) == low
    ensures Distinct(s) ==> Distinct(Part(s, limit, low))
  {
    if s != [] {
      var pre, last := s[..|s| - 1], s[|s| - 1];
      PartMembers(pre, limit, low);
      assert s == pre + [last];
      assert Distinct(s) ==> Distinct(pre) && last !in pre && last !in Part(pre, limit, low);
    }
  }

  /** Elements of one part come in the order they had. */
  lemma {:induction false} PartOrder(s: seq<nat>, limit: nat, low: bool, i: nat, j: nat)
    requires i < j < |Part(s, limit, low)| && Distinct(s)
    ensures exists k: nat, l: nat :: k < l < |s| && s[k] == Part(s, limit, low)[i] && s[l] == Part(s, limit, low)[j]
  {
    var pre := s[..|s| - 1];
    assert Distinct(pre);
    if j < |Part(pre, limit, low)| {
      PartOrder(pre, limit, low, i, j);
      var k: nat, l: nat :| k < l < |pre| && pre[k] == Part(s, limit, low)[i] && pre[l] == Part(s, limit, low)[j];
      assert s[k] == pre[k] && s[l] == pre[l];
    } else {
      PartMembers(pre, limit, low);
      assert Part(pre, limit, low)[i] in pre;
      var k: nat :| k < |pre| && pre[k] == Part(pre, limit, low)[i];
      assert s[k] == pre[k] && s[|s| - 1] == Part(s, limit, low)[j];
    }
  }

  lemma PartGrows(s: seq<nat>, k: nat, limit: nat, low: bool)
    requires k < |s|
    ensures Part(s[..k + 1], limit, low) == Part(s[..k], limit, low) + if (s[k] < limit) == low then [s[k]] else []
  {
    assert s[..k + 1][..k] == s[..k];
  }

  lemma PartStep(s: seq<nat>, k: nat, limit: nat)
    requires k < |s|
    ensures Part(s[..k + 1], limit, true) ==
            if s[k] < limit then Part(s[..k], limit, true) + [s[k]] else Part(s[..k], limit, true)
    ensures Part(s[..k + 1], limit, false) ==
            if s[k] < limit then Part(s[..k], limit, false) else Part(s[..k], limit, false) + [s[k]]
  {
    PartGrows(s, k, limit, true);
    PartGrows(s, k, limit, false);
  }

  /** A place that holds a list pointer: one of the two heads pp1 and pp2, or the link of a page. */
  datatype Cell = Head(i: nat) | LinkOf(f: nat)

  /** The pages of `s` are linked in order from `head`; `tail` is the cell after the last, whose value
      is yet to be set. */
  ghost predicate OpenList(pages: seq<Page>, head: int, h: nat, s: seq<nat>, tail: Cell) {
    && (forall i :: 0 <= i < |s| ==> s[i] < |pages|)
    && (s != [] ==> head == s[0])
    && (forall i :: 0 <= i < |s| - 1 ==> pages[s[i]].link == s[i + 1])
    && tail == if s == [] then Head(h) else LinkOf(s[|s| - 1])
  }

  lemma ChainLinks(pages: seq<Page>, head: int, s: seq<nat>, k: nat)
    requires Chain(pages, head, s) && k < |s|
    ensures s[k] < |pages| && pages[s[k]].link == if k + 1 < |s| then s[k + 1] else -1
    ensures head == s[0]
  {
    ListLinks(Links(pages), head, s, k);
  }

  ghost predicate Disjoint(s: seq<nat>, t: seq<nat>) {
    forall f :: f in s ==> f !in t
  }

  /** The visited pages form two open lists, of low pages and of others; the pages `rest` not yet
      visited are linked as they were, and no count has changed. */
  ghost predicate Parted(pages0: seq<Page>, pages: seq<Page>, heads: seq<int>,
                         lows: seq<nat>, highs: seq<nat>, rest: seq<nat>, tp0: Cell, tp1: Cell) {
    && |heads| == 2 && |pages| == |pages0|
    && OpenList(pages, heads[0], 0, lows, tp0) && OpenList(pages, heads[1], 1, highs, tp1)
    && Distinct(lows) && Distinct(highs) && Distinct(rest)
    && Disjoint(lows, highs) && Disjoint(lows, rest) && Disjoint(highs, rest)
    && (forall f :: f in rest ==> f < |pages| && pages[f] == pages0[f])
    && (forall f :: 0 <= f < |pages| ==> pages[f].ref == pages0[f].ref)
  }

  /** The value `v` stored through cell `c`. */
  function StoredPages(pages: seq<Page>, c: Cell, v: int): seq<Page> {
    if c.LinkOf? && c.f < |pages| then pages[c.f := Page(v, pages[c.f].ref)] else pages
  }

  function StoredHeads(heads: seq<int>, c: Cell, v: int): seq<int> {
    if c.Head? && c.i < |heads| then heads[c.i := v] else heads
  }

  /** Storing a new page through the tail cell of an open list appends it. */
  lemma OpenListGrows(pages: seq<Page>, heads: seq<int>, h: nat, s: seq<nat>, tail: Cell, v: nat)
    requires h < |heads| && OpenList(pages, heads[h], h, s, tail) && Distinct(s) && v < |pages| && v !in s
    ensures OpenList(StoredPages(pages, tail, v), StoredHeads(heads, tail, v)[h], h, s + [v], LinkOf(v))
  {
    var pages2 := StoredPages(pages, tail, v);
    forall i | 0 <= i < |s + [v]| - 1
      ensures pages2[(s + [v])[i]].link == (s + [v])[i + 1]
    {
      assert (s + [v])[i] == s[i];
      if i < |s| - 1 {
        assert s[i] != s[|s| - 1];
      }
    }
  }

  /** Storing elsewhere leaves an open list as it is. */
  lemma OpenListStays(pages: seq<Page>, heads: seq<int>, h: nat, s: seq<nat>, tail: Cell, c: Cell, v: int)
    requires h < |heads| && OpenList(pages, heads[h], h, s, tail)
    requires if c.Head? then c.i != h else c.f !in s
    ensures OpenList(StoredPages(pages, c, v), StoredHeads(heads, c, v)[h], h, s, tail)
  {
    assert forall i :: 0 <= i < |s| ==> s[i] in s;
  }

  lemma DistinctGrows(s: seq<nat>, v: nat)
    requires Distinct(s) && v !in s
    ensures Distinct(s + [v])
  {
  }

  lemma RestShrinks(rest: seq<nat>)
    requires rest != [] && Distinct(rest)
    ensures rest[0] in rest && rest[0] !in rest[1..] && Distinct(rest[1..])
    ensures forall f :: f in rest[1..] ==> f in rest
  {
  }

  /** One turn of the loop on a low page: it is stored through the cell of the low list, and its own
      link becomes that cell. */
  lemma StepLow(pages0: seq<Page>, pages: seq<Page>, heads: seq<int>,
                lows: seq<nat>, highs: seq<nat>, rest: seq<nat>, tp0: Cell, tp1: Cell)
    requires Parted(pages0, pages, heads, lows, highs, rest, tp0, tp1) && rest != []
    ensures var v := rest[0];
      && Parted(pages0, StoredPages(pages, tp0, v), StoredHeads(heads, tp0, v),
                lows + [v], highs, rest[1..], LinkOf(v), tp1)
      && |heads| == 2 && v < |pages| == |pages0| && (if tp0.Head? then tp0.i < 2 else tp0.f < |pages|)
      && StoredPages(pages, tp0, v)[v].link == pages0[v].link
  {
    var v := rest[0];
    RestShrinks(rest);
    OpenListGrows(pages, heads, 0, lows, tp0, v);
    DistinctGrows(lows, v);
    if tp0.LinkOf? {
      assert tp0.f in lows;
    }
    OpenListStays(pages, heads, 1, highs, tp1, tp0, v);
  }

  lemma StepHigh(pages0: seq<Page>, pages: seq<Page>, heads: seq<int>,
                 lows: seq<nat>, highs: seq<nat>, rest: seq<nat>, tp0: Cell, tp1: Cell)
    requires Parted(pages0, pages, heads, lows, highs, rest, tp0, tp1) && rest != []
    ensures var v := rest[0];
      && Parted(pages0, StoredPages(pages, tp1, v), StoredHeads(heads, tp1, v),
                lows, highs + [v], rest[1..], tp0, LinkOf(v))
      && |heads| == 2 && v < |pages| == |pages0| && (if tp1.Head? then tp1.i < 2 else tp1.f < |pages|)
      && StoredPages(pages, tp1, v)[v].link == pages0[v].link
  {
    var v := rest[0];
    RestShrinks(rest);
    OpenListGrows(pages, heads, 1, highs, tp1, v);
    DistinctGrows(highs, v);
    if tp1.LinkOf? {
      assert tp1.f in highs;
    }
    OpenListStays(pages, heads, 0, lows, tp0, tp1, v);
  }

  /** Parted, after `k` pages of `s`. */
  ghost predicate PartedAt(pages0: seq<Page>, pages: seq<Page>, heads: seq<int>,
                           s: seq<nat>, k: nat, limit: nat, tp0: Cell, tp1: Cell) {
    k <= |s| && Parted(pages0, pages, heads, Part(s[..k], limit, true), Part(s[..k], limit, false), s[k..], tp0, tp1)
  }

  lemma AllParted(pages0: seq<Page>, pages: seq<Page>, heads: seq<int>, s: seq<nat>, limit: nat, tp0: Cell, tp1: Cell)
    requires PartedAt(pages0, pages, heads, s, |s|, limit, tp0, tp1)
    ensures Parted(pages0, pages, heads, Part(s, limit, true), Part(s, limit, false), [], tp0, tp1)
    ensures |pages| == |pages0| && |heads| == 2
    ensures forall c :: c == tp0 || c == tp1 ==> if c.Head? then c.i < 2 else c.f < |pages|
    ensures |StoredHeads(heads, tp1, -1)| == 2 && forall v :: |StoredHeads(StoredHeads(heads, tp1, -1), tp0, v)| == 2
  {
    assert s[..|s|] == s && s[|s|..] == [];
  }

  lemma StepPart(pages0: seq<Page>, pages: seq<Page>, heads: seq<int>,
                 s: seq<nat>, k: nat, limit: nat, tp0: Cell, tp1: Cell, head: int)
    requires PartedAt(pages0, pages, heads, s, k, limit, tp0, tp1) && k < |s| && Chain(pages0, head, s)
    ensures var low := s[k] < limit;
      var c := if low then tp0 else tp1;
      && PartedAt(pages0, StoredPages(pages, c, s[k]), StoredHeads(heads, c, s[k]), s, k + 1, limit,
                  if low then LinkOf(s[k]) else tp0, if low then tp1 else LinkOf(s[k]))
      && |heads| == 2 && |StoredPages(pages, c, s[k])| == |pages| && s[k] < |pages|
      && (if c.Head? then c.i < 2 else c.f < |pages|)
      && StoredPages(pages, c, s[k])[s[k]].link == if k + 1 < |s| then s[k + 1] else -1
  {
    assert s[k] == s[k..][0] && s[k..][1..] == s[k + 1..];
    PartStep(s, k, limit);
    ChainLinks(pages0, head, s, k);
    hide Part, Parted, Chain;
    if s[k] < limit {
      StepLow(pages0, pages, heads, Part(s[..k], limit, true), Part(s[..k], limit, false), s[k..], tp0, tp1);
    } else {
      StepHigh(pages0, pages, heads, Part(s[..k], limit, true), Part(s[..k], limit, false), s[k..], tp0, tp1);
    }
  }

  /** The last two stores: the others end in NULL and the low pages end in the others. */
  lemma PartEnd(pages0: seq<Page>, pages: seq<Page>, heads: seq<int>,
                lows: seq<nat>, highs: seq<nat>, tp0: Cell, tp1: Cell)
    requires Parted(pages0, pages, heads, lows, highs, [], tp0, tp1)
    ensures var pages2, heads2 := StoredPages(pages, tp1, -1), StoredHeads(heads, tp1, -1);
      var pages3, heads3 := StoredPages(pages2, tp0, heads2[1]), StoredHeads(heads2, tp0, heads2[1]);
      && Chain(pages3, heads3[0], lows + highs)
      && |pages3| == |pages0| && forall f :: 0 <= f < |pages3| ==> pages3[f].ref == pages0[f].ref
  {
    var pages2, heads2 := StoredPages(pages, tp1, -1), StoredHeads(heads, tp1, -1);
    ClosedChain(pages, heads, highs, tp1);
    if tp0.LinkOf? {
      assert tp0.f in lows;
    }
    if tp1.LinkOf? {
      assert tp1.f in highs;
    }
    OpenListStays(pages, heads, 0, lows, tp0, tp1, -1);
    Joined(pages2, heads2, lows, highs, tp0);
  }

  lemma Joined(pages: seq<Page>, heads: seq<int>, lows: seq<nat>, highs: seq<nat>, tail: Cell)
    requires |heads| == 2 && OpenList(pages, heads[0], 0, lows, tail) && Chain(pages, heads[1], highs)
    requires Distinct(lows) && Disjoint(lows, highs)
    ensures Chain(StoredPages(pages, tail, heads[1]), StoredHeads(heads, tail, heads[1])[0], lows + highs)
  {
    if tail.LinkOf? {
      assert tail.f in lows;
      ChainFrame(pages, StoredPages(pages, tail, heads[1]), heads[1], highs);
    }
    OpenToChain(StoredPages(pages, tail, heads[1]), StoredHeads(heads, tail, heads[1])[0], lows, highs, heads[1]);
  }

  lemma ClosedChain(pages: seq<Page>, heads: seq<int>, s: seq<nat>, tail: Cell)
    requires |heads| == 2 && OpenList(pages, heads[1], 1, s, tail) && Distinct(s)
    ensures Chain(StoredPages(pages, tail, -1), StoredHeads(heads, tail, -1)[1], s)
  {
    assert s + [] == s;
    OpenToChain(StoredPages(pages, tail, -1), StoredHeads(heads, tail, -1)[1], s, [], -1);
  }

  /** Closing an open list makes it a list. */
  lemma {:induction false} OpenToChain(pages: seq<Page>, head: int, s: seq<nat>, rest: seq<nat>, next: int)
    requires forall i :: 0 <= i < |s| ==> s[i] < |pages|
    requires if s == [] then head == next else head == s[0]
    requires forall i :: 0 <= i < |s| - 1 ==> pages[s[i]].link == s[i + 1]
    requires s != [] ==> pages[s[|s| - 1]].link == next
    requires Chain(pages, next, rest)
    ensures Chain(pages, head, s + rest)
    decreases |s|
  {
    if s == [] {
      assert s + rest == rest;
    } else {
      OpenToChain(pages, pages[s[0]].link, s[1..], rest, next);
      assert (s + rest)[1..] == s[1..] + rest;
    }
  }
}
