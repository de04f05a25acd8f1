/** stab_binsearch (kern/kdebug.c): binary search in a table that mixes entry types, of which only the
    entries of one type are sorted. */
module Stab {
  /** uintptr_t. */
  type Addr = n: nat | n < 0x1_0000_0000

  const MAXADDR: Addr := 0xffff_ffff

  /** addr++. */
  function Inc(addr: Addr): Addr {
    (addr + 1) % 0x1_0000_0000
  }

  datatype Entry = Entry(ty: nat, value: Addr)

  /** *region_left, *region_right and any_matches. */
  datatype Bracket = Bracket(left: int, right: int, matched: bool)

  /** Entries of the type are in increasing order of value. */
  ghost predicate Sorted(stabs: seq<Entry>, ty: nat) {
    forall i, j :: 0 <= i < j < |stabs| && stabs[i].ty == ty && stabs[j].ty == ty ==> stabs[i].value <= stabs[j].value
  }

  /** The last entry of the type in [l, m], or l - 1. */
  function Scan(stabs: seq<Entry>, ty: nat, l: nat, m: int): (k: int)
    requires l <= m + 1 <= |stabs|
    ensures l - 1 <= k <= m && (k >= l ==> stabs[k].ty == ty)
    ensures forall i :: k < i <= m ==> stabs[i].ty != ty
    decreases m
  {
    if m >= l && stabs[m].ty != ty then Scan(stabs, ty, l, m - 1) else m
  }

  /** The range left to search, the address looked for, and what has been found. */
  datatype Probe = Probe(l: nat, r: int, addr: Addr, b: Bracket)

  predicate InTable(stabs: seq<Entry>, p: Probe) {
    p.l <= p.r + 1 <= |stabs|
  }

  /** 1 if the range starts with an exact match. The exact-match step may leave the range as it is, but then
      it changes the address, so that the next turn cannot match there again, wherever addr++ has gone. */
  function Exact(stabs: seq<Entry>, ty: nat, l: nat, r: int, addr: Addr): nat {
    if l <= r < |stabs| && stabs[l] == Entry(ty, addr) then 1 else 0
  }

  function Mid(l: nat, r: int): (m: nat)
    requires l <= r
    ensures l <= m <= r
  {
    (l + r) / 2
  }

  /** The branch of the binary search, once the scan from `mid` has come to `m`. */
  function Branch(stabs: seq<Entry>, p: Probe, mid: nat, m: int): Probe
    requires InTable(stabs, p) && p.l <= mid <= p.r && p.l - 1 <= m <= mid
  {
    if m < p.l then Probe(mid + 1, p.r, p.addr, p.b)
    else if stabs[m].value < p.addr then Probe(mid + 1, p.r, p.addr, Bracket(m, p.b.right, true))
    else if stabs[m].value > p.addr then Probe(p.l, m - 1, p.addr, Bracket(p.b.left, m - 1, true))
    else Probe(m, p.r, Inc(p.addr), Bracket(m, p.b.right, true))
  }

  /** One turn of the outer loop. */
  function Next(stabs: seq<Entry>, ty: nat, p: Probe): (q: Probe)
    requires InTable(stabs, p) && p.l <= p.r
    ensures InTable(stabs, q)
    ensures q.r + 1 - q.l < p.r + 1 - p.l ||
            (q.r + 1 - q.l == p.r + 1 - p.l && Exact(stabs, ty, q.l, q.r, q.addr) < Exact(stabs, ty, p.l, p.r, p.addr))
  {
    var mid := Mid(p.l, p.r);
    var m := Scan(stabs, ty, p.l, mid);
    Branch(stabs, p, mid, m)
  }

  function Search(stabs: seq<Entry>, ty: nat, p: Probe): Bracket
    requires InTable(stabs, p)
    decreases p.r + 1 - p.l, Exact(stabs, ty, p.l, p.r, p.addr)
  {
    if p.l > p.r then p.b else Search(stabs, ty, Next(stabs, ty, p))
  }

  /** The adjustment after the search. */
  function Finish(stabs: seq<Entry>, ty: nat, b: Bracket): Bracket
    requires 0 <= b.left && -1 <= b.right < |stabs|
  {
    if !b.matched then Bracket(b.left, b.left - 1, false)
    else if b.right < b.left then Bracket(b.right, b.right, true)
    else
      var k := Scan(stabs, ty, b.left, b.right);
      Bracket(if k < b.left then b.left else k, b.right, true)
  }

  function Start(left: nat, right: int, addr: Addr): Probe {
    Probe(left, right, addr, Bracket(left, right, false))
  }

  function Result(stabs: seq<Entry>, ty: nat, left: nat, right: int, addr: Addr): Bracket
    requires left <= right + 1 <= |stabs|
  {
    SearchInRange(stabs, ty, Start(left, right, addr));
    Finish(stabs, ty, Search(stabs, ty, Start(left, right, addr)))
  }

  lemma {:induction false} SearchInRange(stabs: seq<Entry>, ty: nat, p: Probe)
    requires InTable(stabs, p) && 0 <= p.b.left <= p.l && p.b.right == p.r
    ensures 0 <= Search(stabs, ty, p).left && -1 <= Search(stabs, ty, p).right <= p.r
    decreases p.r + 1 - p.l, Exact(stabs, ty, p.l, p.r, p.addr)
  {
    if p.l <= p.r {
      SearchInRange(stabs, ty, Next(stabs, ty, p));
    }
  }

  lemma Turn(stabs: seq<Entry>, ty: nat, p: Probe, m: int)
    requires InTable(stabs, p) && p.l <= p.r && m == Scan(stabs, ty, p.l, Mid(p.l, p.r))
    ensures var q := Branch(stabs, p, Mid(p.l, p.r), m);
      && InTable(stabs, q) && Search(stabs, ty, p) == Search(stabs, ty, q)
      && (q.r + 1 - q.l < p.r + 1 - p.l ||
          (q.r + 1 - q.l == p.r + 1 - p.l && Exact(stabs, ty, q.l, q.r, q.addr) < Exact(stabs, ty, p.l, p.r, p.addr)))
    ensures m >= p.l ==> stabs[m].ty == ty
  {
  }

  lemma Done(stabs: seq<Entry>, ty: nat, p: Probe)
    requires InTable(stabs, p) && p.l > p.r
    ensures Search(stabs, ty, p) == p.b
  {
  }

  /** stab_binsearch, on any table. */
  method StabBinsearch(stabs: seq<Entry>, ty: nat, addr0: Addr, left0: nat, right0: int) returns (left: int, right: int)
    requires left0 <= right0 + 1 <= |stabs|
    ensures var b := Result(stabs, ty, left0, right0, addr0);
      left == b.left && right == b.right
  {
    left, right := left0, right0;
    var addr: Addr := addr0;
    var l: nat, r: int, matched := left0, right0, false;
    SearchInRange(stabs, ty, Start(left0, right0, addr0));
    hide Search, Exact, Scan, Mid, Start, Result, Finish;
    ghost var found := Search(stabs, ty, Start(left0, right0, addr0));
    while l <= r
      invariant l <= r + 1 <= |stabs|
      invariant Search(stabs, ty, Probe(l, r, addr, Bracket(left, right, matched))) == found
      decreases r + 1 - l, Exact(stabs, ty, l, r, addr)
    {
      var p := Probe(l, r, addr, Bracket(left, right, matched));
      var mid := Mid(l, r);
      var m := ScanDown(stabs, ty, l, mid);
      Turn(stabs, ty, p, m);
      l, r, addr, left, right, matched := Compare(stabs, p, mid, m);
    }
    Done(stabs, ty, Probe(l, r, addr, Bracket(left, right, matched)));
    if !matched {
      right := left - 1;
    } else {
      left := Rightmost(stabs, ty, left, right);
    }
  }

  /** The branches of the outer loop. */
  method Compare(stabs: seq<Entry>, p: Probe, mid: nat, m: int)
    returns (l: nat, r: int, addr: Addr, left: int, right: int, matched: bool)
    requires InTable(stabs, p) && p.l <= mid <= p.r && p.l - 1 <= m <= mid
    ensures Probe(l, r, addr, Bracket(left, right, matched)) == Branch(stabs, p, mid, m)
  {
    l, r, addr, left, right, matched := p.l, p.r, p.addr, p.b.left, p.b.right, p.b.matched;
    if m < l {
      l := mid + 1;
      return;
    }
    matched := true;
    if stabs[m].value < addr {
      left := m;
      l := mid + 1;
    } else if stabs[m].value > addr {
      right := m - 1;
      r := m - 1;
    } else {
      left := m;
      l := m;
      addr := Inc(addr);
    }
  }

  /** The inner loop. */
  method ScanDown(stabs: seq<Entry>, ty: nat, l: nat, mid: nat) returns (m: int)
    requires l <= mid < |stabs|
    ensures m == Scan(stabs, ty, l, mid)
  {
    m := mid;
    while m >= l && stabs[m].ty != ty
      invariant l - 1 <= m <= mid
      invariant Scan(stabs, ty, l, m) == Scan(stabs, ty, l, mid)
    {
      m := m - 1;
    }
  }

  /** The last loop. */
  method Rightmost(stabs: seq<Entry>, ty: nat, left: nat, right: int) returns (k: int)
    requires -1 <= right < |stabs|
    ensures k == Finish(stabs, ty, Bracket(left, right, true)).left
  {
    k := right;
    while k > left && stabs[k].ty != ty
      invariant left <= right ==> left <= k <= right && Scan(stabs, ty, left, k) == Scan(stabs, ty, left, right)
      invariant right < left ==> k == right
    {
      k := k - 1;
    }
  }

  // ----- What the search finds -----

  /** `addr` occurs in entries of the type in [l, r], and so does `addr + 1`, or `addr` is the last address and
      addr++ wraps: the search may run past the entries for `addr`. */
  ghost predicate Overruns(stabs: seq<Entry>, ty: nat, l: nat, r: int, addr: Addr) {
    Occurs(stabs, ty, l, r, addr) && (addr == MAXADDR || Occurs(stabs, ty, l, r, Inc(addr)))
  }

  ghost predicate Occurs(stabs: seq<Entry>, ty: nat, l: nat, r: int, addr: Addr) {
    exists i :: l <= i <= r && i < |stabs| && stabs[i] == Entry(ty, addr)
  }

  ghost predicate NoneIn(stabs: seq<Entry>, ty: nat, i: int, j: int) {
    forall k :: i <= k <= j && 0 <= k < |stabs| ==> stabs[k].ty != ty
  }

  /** Entries of the type lie on either side of `split`: those up to it are <= addr, those after it are > addr. */
  ghost predicate Splits(stabs: seq<Entry>, ty: nat, l: nat, r: int, addr: Addr, split: int) {
    && l - 1 <= split <= r < |stabs|
    && (forall i :: l <= i <= split && stabs[i].ty == ty ==> stabs[i].value <= addr)
    && (forall i :: split < i <= r && stabs[i].ty == ty ==> stabs[i].value > addr)
    && (split < r ==> stabs[split + 1].ty == ty)
  }

  /** `left` is the last entry of the type in [l, r], or `l` if there is none. */
  ghost predicate IsLast(stabs: seq<Entry>, ty: nat, l: nat, r: int, left: int) {
    && NoneIn(stabs, ty, left + 1, r)
    && if NoneIn(stabs, ty, l, r) then left == l else l <= left <= r && left < |stabs| && stabs[left].ty == ty
  }

  /** What the search on [l0, r0] for `a0` has established when it has come to `p`. */
  ghost predicate Narrowed(stabs: seq<Entry>, ty: nat, l0: nat, r0: int, a0: Addr, p: Probe) {
    && l0 <= p.l <= p.r + 1 && p.r <= r0 < |stabs| && p.b.right == p.r
    && (p.addr == a0 || (p.addr == a0 + 1 && Occurs(stabs, ty, l0, r0, a0)))
    && (forall i :: l0 <= i < p.l && stabs[i].ty == ty ==> stabs[i].value < p.addr)
    && (forall i :: p.r < i <= r0 && stabs[i].ty == ty ==> stabs[i].value > a0)
    && (p.r < r0 ==> stabs[p.r + 1].ty == ty)
    && (IsLast(stabs, ty, l0, p.l - 1, p.b.left) ||
        (p.b.left == p.l <= p.r && stabs[p.l].ty == ty && stabs[p.l].value < p.addr && p.b.matched))
    && (if p.b.matched then !NoneIn(stabs, ty, l0, r0) else NoneIn(stabs, ty, l0, p.l - 1) && p.r == r0)
  }

  lemma SkipStep(stabs: seq<Entry>, ty: nat, l0: nat, r0: int, a0: Addr, p: Probe, mid: nat)
    requires Narrowed(stabs, ty, l0, r0, a0, p) && p.l <= mid <= p.r && NoneIn(stabs, ty, p.l, mid)
    ensures Narrowed(stabs, ty, l0, r0, a0, Probe(mid + 1, p.r, p.addr, p.b))
  {
    assert p.b.left != p.l || IsLast(stabs, ty, l0, p.l - 1, p.b.left);
    assert NoneIn(stabs, ty, l0, p.l - 1) ==> NoneIn(stabs, ty, l0, mid);
  }

  lemma LessStep(stabs: seq<Entry>, ty: nat, l0: nat, r0: int, a0: Addr, p: Probe, mid: nat, m: nat)
    requires Sorted(stabs, ty) && Narrowed(stabs, ty, l0, r0, a0, p)
    requires p.l <= m <= mid <= p.r && stabs[m].ty == ty && stabs[m].value < p.addr && NoneIn(stabs, ty, m + 1, mid)
    ensures Narrowed(stabs, ty, l0, r0, a0, Probe(mid + 1, p.r, p.addr, Bracket(m, p.b.right, true)))
  {
    assert !NoneIn(stabs, ty, l0, mid) && !NoneIn(stabs, ty, l0, r0);
  }

  lemma GreaterStep(stabs: seq<Entry>, ty: nat, l0: nat, r0: int, a0: Addr, p: Probe, m: nat)
    requires Sorted(stabs, ty) && Narrowed(stabs, ty, l0, r0, a0, p)
    requires p.l <= m <= p.r && stabs[m].ty == ty && stabs[m].value > p.addr
    ensures Narrowed(stabs, ty, l0, r0, a0, Probe(p.l, m - 1, p.addr, Bracket(p.b.left, m - 1, true)))
  {
    assert !NoneIn(stabs, ty, l0, r0);
  }

  lemma ExactStep(stabs: seq<Entry>, ty: nat, l0: nat, r0: int, a0: Addr, p: Probe, m: nat)
    requires Sorted(stabs, ty) && !Overruns(stabs, ty, l0, r0, a0) && Narrowed(stabs, ty, l0, r0, a0, p)
    requires p.l <= m <= p.r && stabs[m] == Entry(ty, p.addr)
    ensures Narrowed(stabs, ty, l0, r0, a0, Probe(m, p.r, Inc(p.addr), Bracket(m, p.b.right, true)))
  {
    assert Occurs(stabs, ty, l0, r0, p.addr);
    assert !NoneIn(stabs, ty, l0, r0);
  }

  lemma BranchNarrows(stabs: seq<Entry>, ty: nat, l0: nat, r0: int, a0: Addr, p: Probe, mid: nat, m: int)
    requires Sorted(stabs, ty) && !Overruns(stabs, ty, l0, r0, a0) && Narrowed(stabs, ty, l0, r0, a0, p)
    requires p.l <= mid <= p.r && p.l - 1 <= m <= mid && NoneIn(stabs, ty, m + 1, mid) && InTable(stabs, p)
    requires m >= p.l ==> stabs[m].ty == ty
    ensures Narrowed(stabs, ty, l0, r0, a0, Branch(stabs, p, mid, m))
  {
    hide Narrowed, Sorted, Overruns, NoneIn;
    if m < p.l {
      SkipStep(stabs, ty, l0, r0, a0, p, mid);
    } else if stabs[m].value < p.addr {
      LessStep(stabs, ty, l0, r0, a0, p, mid, m);
    } else if stabs[m].value > p.addr {
      GreaterStep(stabs, ty, l0, r0, a0, p, m);
    } else {
      ExactStep(stabs, ty, l0, r0, a0, p, m);
    }
  }

  lemma NextNarrows(stabs: seq<Entry>, ty: nat, l0: nat, r0: int, a0: Addr, p: Probe)
    requires Sorted(stabs, ty) && !Overruns(stabs, ty, l0, r0, a0) && Narrowed(stabs, ty, l0, r0, a0, p) && p.l <= p.r
    ensures InTable(stabs, p)
    ensures Narrowed(stabs, ty, l0, r0, a0, Next(stabs, ty, p))
  {
    var mid := Mid(p.l, p.r);
    var m := Scan(stabs, ty, p.l, mid);
    assert NoneIn(stabs, ty, m + 1, mid);
    assert InTable(stabs, p);
    hide Narrowed, Sorted, Overruns, NoneIn, Branch, Scan, Exact, Mid;
    BranchNarrows(stabs, ty, l0, r0, a0, p, mid, m);
  }

  /** On a sorted table in which the search cannot overrun, it ends at the split between
      the entries <= a0 and the others. */
  lemma {:induction false} SearchFinds(stabs: seq<Entry>, ty: nat, l0: nat, r0: int, a0: Addr, p: Probe)
    requires Sorted(stabs, ty) && !Overruns(stabs, ty, l0, r0, a0) && Narrowed(stabs, ty, l0, r0, a0, p)
    ensures InTable(stabs, p)
    ensures var s := Search(stabs, ty, p);
      && Splits(stabs, ty, l0, r0, a0, s.right) && IsLast(stabs, ty, l0, s.right, s.left)
      && (s.matched <==> !NoneIn(stabs, ty, l0, r0))
    decreases p.r + 1 - p.l, Exact(stabs, ty, p.l, p.r, p.addr)
  {
    if p.l <= p.r {
      NextNarrows(stabs, ty, l0, r0, a0, p);
      SearchFinds(stabs, ty, l0, r0, a0, Next(stabs, ty, p));
    }
  }

  /** The result that stab_binsearch documents: the last entry of the type at or below `addr`, and the
      index before the next entry of the type. */
  ghost predicate Brackets(stabs: seq<Entry>, ty: nat, l: nat, r: int, addr: Addr, b: Bracket) {
    && l <= b.left <= b.right <= r < |stabs|
    && stabs[b.left].ty == ty && stabs[b.left].value <= addr
    && (forall i :: b.left < i <= r && stabs[i].ty == ty ==> i > b.right && stabs[i].value > addr)
    && (b.right < r ==> stabs[b.right + 1].ty == ty)
  }

  /** Every entry of the type lies above `addr`: the search stops before the first of them. */
  ghost predicate Before(stabs: seq<Entry>, ty: nat, l: nat, r: int, b: Bracket) {
    && l - 1 <= b.right < r < |stabs| && stabs[b.right + 1].ty == ty && NoneIn(stabs, ty, l, b.right)
    && b.left == if b.right < l then b.right else l
  }

  ghost predicate SomeAtOrBelow(stabs: seq<Entry>, ty: nat, l: nat, r: int, addr: Addr) {
    exists i :: l <= i <= r && i < |stabs| && stabs[i].ty == ty && stabs[i].value <= addr
  }

  /** What the result is for each kind of range. */
  ghost predicate Finds(stabs: seq<Entry>, ty: nat, l: nat, r: int, addr: Addr)
    requires l <= r + 1 <= |stabs|
  {
    var b := Result(stabs, ty, l, r, addr);
    if NoneIn(stabs, ty, l, r) then b.left == l && b.right == l - 1
    else if SomeAtOrBelow(stabs, ty, l, r, addr) then Brackets(stabs, ty, l, r, addr, b)
    else Before(stabs, ty, l, r, b)
  }

  lemma ScanNone(stabs: seq<Entry>, ty: nat, l: nat, mid: int)
    requires l <= mid + 1 <= |stabs|
    ensures NoneIn(stabs, ty, Scan(stabs, ty, l, mid) + 1, mid)
    ensures Scan(stabs, ty, l, mid) < l ==> NoneIn(stabs, ty, l, mid)
  {
  }

  lemma FinishIs(stabs: seq<Entry>, ty: nat, l: nat, right: int, left: nat)
    requires l - 1 <= right < |stabs| && IsLast(stabs, ty, l, right, left)
    ensures var f := Finish(stabs, ty, Bracket(left, right, true));
      f.right == right && f.left == if NoneIn(stabs, ty, l, right) && right < l then right else left
  {
    if left <= right && !NoneIn(stabs, ty, l, right) {
      ScanNone(stabs, ty, left, right);
    }
  }

  /** Correctness: on a sorted table whose range does not let the search overrun. */
  lemma SearchIsCorrect(stabs: seq<Entry>, ty: nat, l: nat, r: int, addr: Addr)
    requires Sorted(stabs, ty) && l <= r + 1 <= |stabs| && !Overruns(stabs, ty, l, r, addr)
    ensures Finds(stabs, ty, l, r, addr)
  {
    SearchInRange(stabs, ty, Start(l, r, addr));
    SearchFinds(stabs, ty, l, r, addr, Start(l, r, addr));
    var s := Search(stabs, ty, Start(l, r, addr));
    if s.matched {
      SplitFinds(stabs, ty, l, r, addr, s.left, s.right);
    }
    hide Search, Brackets, Before, Splits, IsLast, SomeAtOrBelow, Overruns, Sorted;
  }

  lemma SplitFinds(stabs: seq<Entry>, ty: nat, l: nat, r: int, addr: Addr, left: nat, right: int)
    requires l <= r + 1 <= |stabs| && Splits(stabs, ty, l, r, addr, right)
    requires IsLast(stabs, ty, l, right, left) && !NoneIn(stabs, ty, l, r)
    ensures var b := Finish(stabs, ty, Bracket(left, right, true));
      if SomeAtOrBelow(stabs, ty, l, r, addr) then Brackets(stabs, ty, l, r, addr, b) else Before(stabs, ty, l, r, b)
  {
    FinishIs(stabs, ty, l, right, left);
    if SomeAtOrBelow(stabs, ty, l, r, addr) {
      assert !NoneIn(stabs, ty, l, right);
    } else {
      assert NoneIn(stabs, ty, l, right);
    }
  }

  lemma {:induction false} MatchedIff(stabs: seq<Entry>, ty: nat, l0: nat, r0: int, p: Probe)
    requires InTable(stabs, p) && l0 <= p.l && p.r <= r0 < |stabs|
    requires if p.b.matched then !NoneIn(stabs, ty, l0, r0) else NoneIn(stabs, ty, l0, p.l - 1) && p.r == r0
    ensures Search(stabs, ty, p).matched <==> !NoneIn(stabs, ty, l0, r0)
    decreases p.r + 1 - p.l, Exact(stabs, ty, p.l, p.r, p.addr)
  {
    if p.l <= p.r {
      ScanNone(stabs, ty, p.l, Mid(p.l, p.r));
      assert NoneIn(stabs, ty, l0, p.l - 1) && NoneIn(stabs, ty, p.l, Mid(p.l, p.r)) ==>
          NoneIn(stabs, ty, l0, Mid(p.l, p.r));
      MatchedIff(stabs, ty, l0, r0, Next(stabs, ty, p));
    }
  }

  /** Whatever the table holds, the search ends with left > right exactly if the range has no entry of the type. */
  lemma EmptyIff(stabs: seq<Entry>, ty: nat, l: nat, r: int, addr: Addr)
    requires l <= r + 1 <= |stabs|
    ensures var b := Result(stabs, ty, l, r, addr);
      b.left > b.right <==> NoneIn(stabs, ty, l, r)
  {
    SearchInRange(stabs, ty, Start(l, r, addr));
    MatchedIff(stabs, ty, l, r, Start(l, r, addr));
  }

  /** With `addr` at `i` and `addr + 1` at `j` the next entry of the type, the search on [i, j] goes on to `j`. */
  lemma {:induction false} Overshoots(stabs: seq<Entry>, ty: nat, i: nat, j: nat, addr: Addr, p: Probe)
    requires Neighbours(stabs, ty, i, j, addr)
    requires i <= p.l <= j && p.r == j && p.addr == addr + 1 && p.b == Bracket(i, j, true)
    ensures Search(stabs, ty, p) == Search(stabs, ty, Probe(j, j, Inc(addr + 1), Bracket(j, j, true)))
    decreases j - p.l
  {
    var mid := Mid(p.l, j);
    var m := Scan(stabs, ty, p.l, mid);
    if mid < j {
      assert m < p.l || m == i;
      assert Next(stabs, ty, p) == Probe(mid + 1, j, addr + 1, Bracket(i, j, true));
      Overshoots(stabs, ty, i, j, addr, Next(stabs, ty, p));
    } else {
      assert m == j;
      assert Next(stabs, ty, p) == Probe(j, j, Inc(addr + 1), Bracket(j, j, true));
    }
  }

  /** `addr` at `i` and `addr + 1` at `j`, with no entry of the type between. */
  ghost predicate Neighbours(stabs: seq<Entry>, ty: nat, i: nat, j: nat, addr: Addr) {
    && addr < MAXADDR && i < j < |stabs| && stabs[i] == Entry(ty, addr) && stabs[j] == Entry(ty, addr + 1)
    && NoneIn(stabs, ty, i + 1, j - 1)
  }

  lemma {:induction false} Adjacent(stabs: seq<Entry>, ty: nat, addr: Addr, i0: nat, j0: nat) returns (i: nat, j: nat)
    requires Sorted(stabs, ty) && addr < MAXADDR && i0 < j0 < |stabs| && stabs[i0] == Entry(ty, addr)
    requires stabs[j0] == Entry(ty, addr + 1)
    ensures Neighbours(stabs, ty, i, j, addr)
    decreases j0 - i0
  {
    if NoneIn(stabs, ty, i0 + 1, j0 - 1) {
      i, j := i0, j0;
    } else {
      var k :| i0 < k < j0 && stabs[k].ty == ty;
      if stabs[k].value == addr {
        i, j := Adjacent(stabs, ty, addr, k, j0);
      } else {
        i, j := Adjacent(stabs, ty, addr, i0, k);
      }
    }
  }

  /** Where the search of [i, j] for `addr` gets to: entry `j`, with addr + 2. */
  lemma Passes(stabs: seq<Entry>, ty: nat, i: nat, j: nat, addr: Addr)
    requires Neighbours(stabs, ty, i, j, addr)
    ensures Search(stabs, ty, Start(i, j, addr)) == Search(stabs, ty, Probe(j, j, Inc(addr + 1), Bracket(j, j, true)))
    ensures SomeAtOrBelow(stabs, ty, i, j, addr) && !NoneIn(stabs, ty, i, j)
  {
    var p := Start(i, j, addr);
    assert Scan(stabs, ty, i, Mid(i, j)) == i;
    assert Next(stabs, ty, p) == Probe(i, j, addr + 1, Bracket(i, j, true));
    Overshoots(stabs, ty, i, j, addr, Next(stabs, ty, p));
  }

  lemma SearchOvershoots(stabs: seq<Entry>, ty: nat, i: nat, j: nat, addr: Addr)
    requires Neighbours(stabs, ty, i, j, addr) && addr + 2 <= MAXADDR
    ensures Result(stabs, ty, i, j, addr) == Bracket(j, j, true) && !Finds(stabs, ty, i, j, addr)
  {
    Passes(stabs, ty, i, j, addr);
    var q, end := Probe(j, j, addr + 2, Bracket(j, j, true)), Probe(j + 1, j, addr + 2, Bracket(j, j, true));
    assert Mid(j, j) == j && Scan(stabs, ty, j, j) == j;
    assert Next(stabs, ty, q) == end;
    assert Search(stabs, ty, q) == Search(stabs, ty, end);
  }

  /** The last address but one: at `j` addr++ wraps to 0, and the search ends before `j`, on what lies between.
      Unless that is nothing, it is no entry of the type. */
  lemma SearchSkips(stabs: seq<Entry>, ty: nat, i: nat, j: nat)
    requires Neighbours(stabs, ty, i, j, MAXADDR - 1)
    ensures Result(stabs, ty, i, j, MAXADDR - 1) == Bracket(j - 1, j - 1, true)
    ensures Finds(stabs, ty, i, j, MAXADDR - 1) <==> i + 1 == j
  {
    Passes(stabs, ty, i, j, MAXADDR - 1);
    var q, end := Probe(j, j, 0, Bracket(j, j, true)), Probe(j, j - 1, 0, Bracket(j, j - 1, true));
    assert Mid(j, j) == j && Scan(stabs, ty, j, j) == j;
    assert Next(stabs, ty, q) == end;
    assert Search(stabs, ty, q) == Search(stabs, ty, end);
  }

  /** The last address: addr++ wraps to 0, and the search on [i, i] ends before the entry it has found. */
  lemma SearchWraps(stabs: seq<Entry>, ty: nat, i: nat)
    requires i < |stabs| && stabs[i] == Entry(ty, MAXADDR)
    ensures Result(stabs, ty, i, i, MAXADDR) == Bracket(i - 1, i - 1, true) && !Finds(stabs, ty, i, i, MAXADDR)
  {
    var p := Start(i, i, MAXADDR);
    var q := Probe(i, i, 0, Bracket(i, i, true));
    var end := Probe(i, i - 1, 0, Bracket(i, i - 1, true));
    assert Mid(i, i) == i && Scan(stabs, ty, i, i) == i;
    assert Next(stabs, ty, p) == q && Next(stabs, ty, q) == end;
    assert Search(stabs, ty, p) == Search(stabs, ty, q) == Search(stabs, ty, end) == end.b;
    assert SomeAtOrBelow(stabs, ty, i, i, MAXADDR) && !NoneIn(stabs, ty, i, i);
  }

  /** The search for `addr` is right on every range of a sorted table exactly if no entry of the type holds
      `addr`, or `addr` is not the last address and no entry of the type holds `addr + 1`. For the last address
      but one that suffices too, and if the search is right then an entry that holds it is followed at once by
      the next of the type. */
  lemma CorrectIff(stabs: seq<Entry>, ty: nat, addr: Addr)
    requires Sorted(stabs, ty)
    ensures !Overruns(stabs, ty, 0, |stabs| - 1, addr) ==> RightEverywhere(stabs, ty, addr)
    ensures addr != MAXADDR - 1 && RightEverywhere(stabs, ty, addr) ==> !Overruns(stabs, ty, 0, |stabs| - 1, addr)
    ensures addr == MAXADDR - 1 && RightEverywhere(stabs, ty, addr) ==>
      forall i: nat, j: nat :: Neighbours(stabs, ty, i, j, addr) ==> j == i + 1
  {
    if !Overruns(stabs, ty, 0, |stabs| - 1, addr) {
      forall l: nat, r: int | l <= r + 1 <= |stabs| ensures Finds(stabs, ty, l, r, addr) {
        SearchIsCorrect(stabs, ty, l, r, addr);
      }
    }
    if addr == MAXADDR - 1 {
      forall i: nat, j: nat | Neighbours(stabs, ty, i, j, addr) ensures Finds(stabs, ty, i, j, addr) <==> j == i + 1 {
        SearchSkips(stabs, ty, i, j);
      }
    } else if Overruns(stabs, ty, 0, |stabs| - 1, addr) {
      var i0 :| 0 <= i0 < |stabs| && stabs[i0] == Entry(ty, addr);
      if addr == MAXADDR {
        SearchWraps(stabs, ty, i0);
      } else {
        var j0 :| 0 <= j0 < |stabs| && stabs[j0] == Entry(ty, addr + 1);
        var i, j := Adjacent(stabs, ty, addr, i0, j0);
        SearchOvershoots(stabs, ty, i, j, addr);
      }
    }
  }

  /** The search for `addr` gives what is documented on every range. */
  ghost predicate RightEverywhere(stabs: seq<Entry>, ty: nat, addr: Addr) {
    forall l: nat, r: int :: l <= r + 1 <= |stabs| ==> Finds(stabs, ty, l, r, addr)
  }
}
