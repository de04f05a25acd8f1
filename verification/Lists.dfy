/** Linked lists that run through the slots of an array: page_free_list (kern/pmap.c) and env_free_list (kern/env.c). */
module Lists {
  predicate Distinct(s: seq<nat>) {
    forall i, j :: 0 <= i < j < |s| ==> s[i] != s[j]
  }

  /** The list that starts at slot `head` runs through `items` and ends; `link` holds the next slot of each, or -1. */
  ghost predicate List(link: seq<int>, head: int, items: seq<nat>)
    decreases |items|
  {
    if items == [] then head == -1
    else items[0] < |link| && head == items[0] && List(link, link[items[0]], items[1..])
  }

  lemma ListEmpty(link: seq<int>)
    ensures List(link, -1, [])
  {
  }

  /** Links of other slots do not matter. */
  lemma {:induction false} ListFrame(link: seq<int>, link2: seq<int>, head: int, items: seq<nat>)
    requires List(link, head, items) && |link2| == |link|
    requires forall e :: e in items && e < |link| ==> link2[e] == link[e]
    ensures List(link2, head, items)
    decreases |items|
  {
    if items != [] {
      ListFrame(link, link2, link[items[0]], items[1..]);
    }
  }

  /** Slot `e` is put at the front. */
  lemma Pushed(link: seq<int>, head: int, items: seq<nat>, e: nat)
    requires List(link, head, items) && e < |link| && e !in items
    ensures List(link[e := head], e, [e] + items)
  {
    ListFrame(link, link[e := head], head, items);
  }

  /** Each slot of the list links to the next. */
  lemma {:induction false} ListLinks(link: seq<int>, head: int, items: seq<nat>, k: nat)
    requires List(link, head, items) && k < |items|
    ensures head == items[0] && items[k] < |link| && link[items[k]] == if k + 1 < |items| then items[k + 1] else -1
    decreases k
  {
    if k > 0 {
      ListLinks(link, link[items[0]], items[1..], k - 1);
    }
  }
}
