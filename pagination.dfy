/** The pagination walk over a playlist's track pages
    (`fetch_all_playlist_tracks`, and `fetch_tracks` in the earlier backend). */
module Pagination {
  import opened Common
  import opened Seqs
  import opened Catalog

  /** `if not next_url: break` treats a missing, null or empty URL alike. */
  predicate HasNext(p: Page) {
    p.next.Some? && p.next.value != ""
  }

  /** The JSON behind a URL; a response without `items` (an error body) reads
      as a page with no items. */
  function Fetch(pages: map<string, Page>, url: string): Page {
    if url in pages then pages[url] else Page([], None)
  }

  function Prepend(xs: seq<RemoteTrack>, r: Option<seq<RemoteTrack>>): Option<seq<RemoteTrack>> {
    if r.Some? then Some(xs + r.value) else None
  }

  /** Reference definition of the walk from page `cur` with at most `fuel`
      further fetches: collect the page's items; stop at a page with no items
      or no next URL; otherwise fetch the next page. None when the bound is hit
      before the walk ends. */
  function Walk(pages: map<string, Page>, cur: Page, fuel: nat): Option<seq<RemoteTrack>>
    decreases fuel
  {
    if cur.items == [] then Some([])
    else if !HasNext(cur) then Some(cur.items)
    else if fuel == 0 then None
    else Prepend(cur.items, Walk(pages, Fetch(pages, cur.next.value), fuel - 1))
  }

  /** The source's `while tracks:` loop, which extends the accumulator and
      moves `cur` to the next page; `fuel` bounds the number of fetches. */
  method FetchAllPlaylistTracks(pages: map<string, Page>, first: Page, fuel: nat)
    returns (all: Option<seq<RemoteTrack>>)
    ensures all == Walk(pages, first, fuel)
  {
    var acc: seq<RemoteTrack> := [];
    var cur := first;
    var left := fuel;
    assert Prepend(acc, Walk(pages, cur, left)) == Walk(pages, first, fuel) by {
      var w := Walk(pages, first, fuel);
      if w.Some? { assert [] + w.value == w.value; }
    }
    while cur.items != []
      invariant Walk(pages, first, fuel) == Prepend(acc, Walk(pages, cur, left))
      decreases left
    {
      ghost var before := acc;
      acc := acc + cur.items;
      if !HasNext(cur) {
        return Some(acc);
      }
      if left == 0 {
        return None;
      }
      var w := Walk(pages, Fetch(pages, cur.next.value), left - 1);
      assert Walk(pages, cur, left) == Prepend(cur.items, w);
      assert Prepend(before, Prepend(cur.items, w)) == Prepend(acc, w) by {
        if w.Some? { assert before + (cur.items + w.value) == acc + w.value; }
      }
      cur := Fetch(pages, cur.next.value);
      left := left - 1;
    }
    assert acc + [] == acc;
    return Some(acc);
  }

  /** `chain` is the sequence of pages the walk visits from `first`: every page
      but the last has items and a next URL leading to its successor, and the
      last has no items or no next URL. */
  ghost predicate VisitedChain(pages: map<string, Page>, first: Page, chain: seq<Page>) {
    |chain| > 0 && chain[0] == first &&
    (forall i | 0 <= i < |chain| - 1 ::
      chain[i].items != [] && HasNext(chain[i]) &&
      chain[i + 1] == Fetch(pages, chain[i].next.value)) &&
    (chain[|chain| - 1].items == [] || !HasNext(chain[|chain| - 1]))
  }

  function ItemLists(chain: seq<Page>): (ls: seq<seq<RemoteTrack>>)
    ensures |ls| == |chain| && forall i | 0 <= i < |chain| :: ls[i] == chain[i].items
  {
    seq(|chain|, i requires 0 <= i < |chain| => chain[i].items)
  }

  /** The walk returns the in-order concatenation of the item lists of the
      visited pages, starting with the page embedded in the playlist, provided
      the bound covers the fetches (one per page after the first). */
  lemma {:induction false} WalkConcatenatesChain(pages: map<string, Page>, first: Page, chain: seq<Page>, fuel: nat)
    requires VisitedChain(pages, first, chain) && fuel >= |chain| - 1
    ensures Walk(pages, first, fuel) == Some(Flatten(ItemLists(chain)))
    decreases |chain|
  {
    var tail := chain[1..];
    assert ItemLists(chain) == [first.items] + ItemLists(tail);
    FlattenCons(first.items, ItemLists(tail));
    if |chain| > 1 {
      VisitedChainTail(pages, chain);
      WalkConcatenatesChain(pages, chain[1], tail, fuel - 1);
      assert chain[1] == Fetch(pages, first.next.value);
    } else {
      assert ItemLists(tail) == [] && chain[|chain| - 1] == first;
      assert first.items + [] == first.items;
    }
  }

  /** The chain visited from the second page is the rest of the chain. */
  lemma VisitedChainTail(pages: map<string, Page>, chain: seq<Page>)
    requires |chain| > 1 && VisitedChain(pages, chain[0], chain)
    ensures VisitedChain(pages, chain[1], chain[1..])
  {
    var tail := chain[1..];
    forall i | 0 <= i < |tail| - 1
      ensures tail[i].items != [] && HasNext(tail[i]) && tail[i + 1] == Fetch(pages, tail[i].next.value)
    {
      assert tail[i] == chain[i + 1] && tail[i + 1] == chain[i + 2];
    }
  }

  /** A page without items ends the walk, with nothing collected from it, even
      when it carries a next URL. */
  lemma EmptyPageEndsWalk(pages: map<string, Page>, p: Page, fuel: nat)
    requires p.items == []
    ensures Walk(pages, p, fuel) == Some([])
  {
  }

  /** A larger fetch bound does not change a walk that already ended. */
  lemma {:induction false} WalkFuelMonotone(pages: map<string, Page>, cur: Page, fuel: nat, more: nat)
    requires Walk(pages, cur, fuel).Some? && more >= fuel
    ensures Walk(pages, cur, more) == Walk(pages, cur, fuel)
    decreases fuel
  {
    if cur.items != [] && HasNext(cur) {
      WalkFuelMonotone(pages, Fetch(pages, cur.next.value), fuel - 1, more - 1);
    }
  }
}
