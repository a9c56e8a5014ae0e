/** The response aggregates of the api sync: `get_top_artists` (the first five
    grouped artist rows) and `get_top_genres` (a genre list weighted by track
    counts, tallied like `collections.Counter`, sorted by count with Python's
    stable `sorted(..., reverse=True)` and cut to five). */
module Aggregates {
  import opened Common
  import opened Seqs
  import opened Text
  import opened Batching
  import opened ApiModels

  /** How many artists and genres the response lists. */
  const TopCount := 5

  // ---- get_top_artists -----------------------------------------------------------

  /** `[{"name": a.name, "count": a.num_tracks} for a in artists[:5]]` */
  function TopArtists(groups: seq<ArtistGroup>): (top: seq<(Option<string>, nat)>)
    ensures |top| == Min(TopCount, |groups|)
    ensures forall i | 0 <= i < |top| :: top[i] == (groups[i].profile.name, groups[i].numTracks)
  {
    seq(Min(TopCount, |groups|), i requires 0 <= i < Min(TopCount, |groups|) =>
      (groups[i].profile.name, groups[i].numTracks))
  }

  /** Over rows ordered by count, the listed artists are the five with the most
      tracks: their counts do not increase, and no unlisted row has more tracks
      than any listed one. Fewer than five are listed only when there are fewer
      rows. */
  lemma TopArtistsAreTop(groups: seq<ArtistGroup>)
    requires SortedByCountDesc(groups)
    ensures var top := TopArtists(groups);
      |top| <= TopCount &&
      (|top| < TopCount ==> |top| == |groups|) &&
      (forall i, j | 0 <= i < j < |top| :: top[i].1 >= top[j].1) &&
      (forall i, j | 0 <= i < |top| <= j < |groups| :: groups[j].numTracks <= top[i].1)
  {
  }

  // ---- the weighted genre list ----------------------------------------------------

  function Repeat(g: string, n: nat): (r: seq<string>)
    ensures |r| == n && forall i | 0 <= i < n :: r[i] == g
  {
    seq(n, _ => g)
  }

  /** For one artist row: each non-empty segment of its genre column, `n` times,
      segments in order. */
  function ArtistGenres(segments: seq<string>, n: nat): seq<string>
    decreases |segments|
  {
    if segments == [] then []
    else
      var g := segments[|segments| - 1];
      ArtistGenres(segments[..|segments| - 1], n) + (if g != "" then Repeat(g, n) else [])
  }

  /** The `genres` list of `get_top_genres`: for every row in order, every
      comma-separated segment of its genres, once per track, empty segments
      dropped. */
  function GenresFlat(groups: seq<ArtistGroup>): seq<string>
    decreases |groups|
  {
    if groups == [] then []
    else
      var a := groups[|groups| - 1];
      GenresFlat(groups[..|groups| - 1]) + ArtistGenres(Split(a.profile.genres, ','), a.numTracks)
  }

  /** Independent reference: how often a genre is listed, as the sum over rows
      of the row's track count times the genre's segments in that row. */
  function GenreWeight(groups: seq<ArtistGroup>, g: string): nat
    decreases |groups|
  {
    if groups == [] then 0
    else
      var a := groups[|groups| - 1];
      GenreWeight(groups[..|groups| - 1], g) + Times(a.numTracks, multiset(Split(a.profile.genres, ','))[g])
  }

  /** `n * k`, as `k` additions of `n`. */
  function Times(n: nat, k: nat): nat
    decreases k
  {
    if k == 0 then 0 else Times(n, k - 1) + n
  }

  lemma {:induction false} TimesIsProduct(n: nat, k: nat)
    ensures Times(n, k) == n * k
    decreases k
  {
    if k > 0 {
      TimesIsProduct(n, k - 1);
      MulSucc(n, k - 1);
    }
  }

  lemma {:induction false} RepeatCount(g: string, n: nat, h: string)
    ensures multiset(Repeat(g, n))[h] == if h == g then n else 0
    decreases n
  {
    if n > 0 {
      RepeatCount(g, n - 1, h);
      assert Repeat(g, n) == Repeat(g, n - 1) + [g];
    }
  }

  lemma {:induction false} ArtistGenresCount(segments: seq<string>, n: nat, g: string)
    ensures multiset(ArtistGenres(segments, n))[g] == if g == "" then 0 else Times(n, multiset(segments)[g])
    decreases |segments|
  {
    if segments != [] {
      var init, last := segments[..|segments| - 1], segments[|segments| - 1];
      ArtistGenresCount(init, n, g);
      ArtistGenresStep(segments, n, g);
      if g == last && g != "" {
        assert Times(n, multiset(segments)[g]) == Times(n, multiset(init)[g]) + n;
      }
    }
  }

  /** The last segment adds `n` occurrences of itself, unless it is empty. */
  lemma ArtistGenresStep(segments: seq<string>, n: nat, g: string)
    requires segments != []
    ensures var init, last := segments[..|segments| - 1], segments[|segments| - 1];
      multiset(ArtistGenres(segments, n))[g] ==
        multiset(ArtistGenres(init, n))[g] + (if last != "" && g == last then n else 0) &&
      multiset(segments)[g] == multiset(init)[g] + (if g == last then 1 else 0)
  {
    var init, last := segments[..|segments| - 1], segments[|segments| - 1];
    assert segments == init + [last];
    if last != "" {
      RepeatCount(last, n, g);
    }
  }

  lemma MulSucc(n: nat, k: nat)
    ensures n * (k + 1) == n * k + n
  {
  }

  /** Each non-empty genre appears in the flat list exactly its weight many
      times, and the empty genre never appears. */
  lemma {:induction false} GenresFlatCounts(groups: seq<ArtistGroup>, g: string)
    ensures g != "" ==> multiset(GenresFlat(groups))[g] == GenreWeight(groups, g)
    ensures "" !in GenresFlat(groups)
    decreases |groups|
  {
    if groups != [] {
      var a := groups[|groups| - 1];
      var segs := Split(a.profile.genres, ',');
      GenresFlatCounts(groups[..|groups| - 1], g);
      GenresFlatCounts(groups[..|groups| - 1], "");
      ArtistGenresCount(segs, a.numTracks, g);
      ArtistGenresCount(segs, a.numTracks, "");
      assert multiset(ArtistGenres(segs, a.numTracks))[""] == 0;
    }
  }

  /** A genre column written as the comma-join of comma-free genres yields
      exactly those genres again (each `n` times, empty ones dropped); in
      particular an artist without genres contributes nothing. */
  lemma {:induction false} JoinedGenresReadBack(genres: seq<string>, n: nat)
    requires NoSep(genres, ',')
    ensures ArtistGenres(Split(Join(genres, ','), ','), n) == ArtistGenres(genres, n)
  {
    if genres == [] {
      assert Split(Join(genres, ','), ',') == [""];
      assert [""][..0] == [];
    } else {
      SplitJoin(genres, ',');
    }
  }

  // ---- Counter ----------------------------------------------------------------------

  /** `(genre, count)` items; a genre's count in such a list is its first entry's. */
  function CountOf(t: seq<(string, nat)>, k: string): nat
    decreases |t|
  {
    if t == [] then 0 else if t[0].0 == k then t[0].1 else CountOf(t[1..], k)
  }

  function Names(t: seq<(string, nat)>): (ns: seq<string>)
    ensures |ns| == |t| && forall i | 0 <= i < |t| :: ns[i] == t[i].0
  {
    seq(|t|, i requires 0 <= i < |t| => t[i].0)
  }

  /** Counting one more `x`: its entry is incremented, or appended with count 1. */
  function Bump(t: seq<(string, nat)>, x: string): seq<(string, nat)>
    decreases |t|
  {
    if t == [] then [(x, 1)]
    else if t[0].0 == x then [(x, t[0].1 + 1)] + t[1..]
    else [t[0]] + Bump(t[1..], x)
  }

  /** `Counter(xs).items()`: one entry per distinct element, in order of first
      occurrence. */
  function Tally(xs: seq<string>): seq<(string, nat)>
    decreases |xs|
  {
    if xs == [] then [] else Bump(Tally(xs[..|xs| - 1]), xs[|xs| - 1])
  }

  lemma {:induction false} BumpSpec(t: seq<(string, nat)>, x: string)
    requires Distinct(Names(t))
    ensures Distinct(Names(Bump(t, x)))
    ensures forall k :: k in Names(Bump(t, x)) <==> k in Names(t) || k == x
    ensures forall k :: CountOf(Bump(t, x), k) == CountOf(t, k) + (if k == x then 1 else 0)
    decreases |t|
  {
    if t != [] && t[0].0 != x {
      var rest := t[1..];
      assert Names(rest) == Names(t)[1..];
      BumpSpec(rest, x);
      var b := Bump(t, x);
      assert b == [t[0]] + Bump(rest, x);
      assert Names(b) == [t[0].0] + Names(Bump(rest, x));
      assert forall k :: k in Names(t) <==> k == t[0].0 || k in Names(rest);
      assert t[0].0 !in Names(rest);
    } else if t != [] {
      var b := Bump(t, x);
      assert b[1..] == t[1..];
      assert Names(b) == Names(t);
      forall k ensures CountOf(b, k) == CountOf(t, k) + (if k == x then 1 else 0) {
        if k != x {
          assert CountOf(b, k) == CountOf(b[1..], k);
        }
      }
    } else {
      var b := Bump(t, x);
      assert b == [(x, 1)] && b[1..] == [];
      assert Names(b) == [x];
    }
  }

  /** The tally lists every element once, with its number of occurrences. */
  lemma {:induction false} TallyCounts(xs: seq<string>)
    ensures Distinct(Names(Tally(xs)))
    ensures forall k :: k in Names(Tally(xs)) <==> k in xs
    ensures forall k :: CountOf(Tally(xs), k) == multiset(xs)[k]
    decreases |xs|
  {
    if xs != [] {
      var init, last := xs[..|xs| - 1], xs[|xs| - 1];
      TallyCounts(init);
      BumpSpec(Tally(init), last);
      assert xs == init + [last];
    }
  }

  /** In a list with distinct names every entry carries its name's count. */
  lemma {:induction false} EntryCount(t: seq<(string, nat)>, i: nat)
    requires Distinct(Names(t)) && i < |t|
    ensures t[i].1 == CountOf(t, t[i].0)
    decreases i
  {
    if i > 0 {
      assert Names(t[1..]) == Names(t)[1..];
      assert Names(t)[0] != Names(t)[i];
      EntryCount(t[1..], i - 1);
    }
  }

  // ---- sorted(items, key=count, reverse=True) ----------------------------------------

  predicate SortedDesc(s: seq<(string, nat)>) {
    forall i, j | 0 <= i < j < |s| :: s[i].1 >= s[j].1
  }

  /** Places a later item after every item whose count is at least its own, so
      items of equal count keep their order. */
  function InsertDesc(s: seq<(string, nat)>, x: (string, nat)): seq<(string, nat)>
    decreases |s|
  {
    if s == [] || s[|s| - 1].1 >= x.1 then s + [x]
    else InsertDesc(s[..|s| - 1], x) + [s[|s| - 1]]
  }

  /** Python's stable descending sort by count, as an insertion sort. */
  function SortDesc(t: seq<(string, nat)>): seq<(string, nat)>
    decreases |t|
  {
    if t == [] then [] else InsertDesc(SortDesc(t[..|t| - 1]), t[|t| - 1])
  }

  lemma {:induction false} InsertDescSpec(s: seq<(string, nat)>, x: (string, nat))
    requires SortedDesc(s)
    ensures SortedDesc(InsertDesc(s, x))
    ensures multiset(InsertDesc(s, x)) == multiset(s) + multiset{x}
    decreases |s|
  {
    if s != [] && s[|s| - 1].1 < x.1 {
      var init, last := s[..|s| - 1], s[|s| - 1];
      assert s == init + [last];
      InsertDescSpec(init, x);
      var r := InsertDesc(init, x);
      forall i | 0 <= i < |init| ensures init[i].1 >= last.1 {
        assert init[i] == s[i];
      }
      InsertedBound(init, r, x, last.1);
      SortedSnoc(r, last);
    } else {
      SortedSnoc(s, x);
    }
  }

  /** A permutation of `init` plus `x` keeps a lower bound of all their counts. */
  lemma InsertedBound(init: seq<(string, nat)>, r: seq<(string, nat)>, x: (string, nat), b: nat)
    requires multiset(r) == multiset(init) + multiset{x}
    requires x.1 >= b && forall i | 0 <= i < |init| :: init[i].1 >= b
    ensures forall i | 0 <= i < |r| :: r[i].1 >= b
  {
    forall i | 0 <= i < |r| ensures r[i].1 >= b {
      assert r[i] in multiset(r);
      if r[i] != x {
        assert r[i] in multiset(init);
        var k :| 0 <= k < |init| && init[k] == r[i];
      }
    }
  }

  /** An entry whose count is at most every count of a sorted list may follow it. */
  lemma SortedSnoc(s: seq<(string, nat)>, x: (string, nat))
    requires SortedDesc(s) && forall i | 0 <= i < |s| :: s[i].1 >= x.1
    ensures SortedDesc(s + [x])
  {
  }

  /** The sort orders by count, largest first, and is a permutation. */
  lemma {:induction false} SortDescSpec(t: seq<(string, nat)>)
    ensures SortedDesc(SortDesc(t))
    ensures multiset(SortDesc(t)) == multiset(t)
    decreases |t|
  {
    if t != [] {
      var init, last := t[..|t| - 1], t[|t| - 1];
      SortDescSpec(init);
      InsertDescSpec(SortDesc(init), last);
      assert t == init + [last];
    }
  }

  // ---- get_top_genres --------------------------------------------------------------

  /** The `top_genres` of the response for the grouped artist rows. */
  function TopGenres(groups: seq<ArtistGroup>): seq<(string, nat)> {
    var s := SortDesc(Tally(GenresFlat(groups)));
    s[..Min(TopCount, |s|)]
  }

  lemma {:induction false} DistinctOnce<T>(s: seq<T>, i: nat, j: nat)
    requires i < j < |s| && s[i] == s[j]
    ensures multiset(s)[s[i]] >= 2
  {
    assert s == s[..j] + [s[j]] + s[j + 1..];
    assert s[i] in s[..j];
  }

  /** Entries of a count list with distinct names carry their name's count. */
  lemma TallyEntry(t: seq<(string, nat)>, e: (string, nat))
    requires Distinct(Names(t)) && e in t
    ensures e.1 == CountOf(t, e.0)
  {
    var i :| 0 <= i < |t| && t[i] == e;
    EntryCount(t, i);
  }

  /** A sequence without duplicates holds each value at most once. */
  lemma {:induction false} AtMostOnce<T>(s: seq<T>, e: T)
    requires Distinct(s)
    ensures multiset(s)[e] <= 1
  {
    if s != [] {
      var init := s[..|s| - 1];
      assert s == init + [s[|s| - 1]];
      AtMostOnce(init, e);
    }
  }

  lemma NamesDistinctEntries(t: seq<(string, nat)>)
    requires Distinct(Names(t))
    ensures Distinct(t)
  {
    assert forall i, j | 0 <= i < j < |t| :: Names(t)[i] != Names(t)[j];
  }

  /** The sorted tally lists every genre of the weighted list exactly once,
      with its number of occurrences. */
  lemma SortedTally(flat: seq<string>)
    ensures var s := SortDesc(Tally(flat));
      SortedDesc(s) &&
      (forall i | 0 <= i < |s| :: s[i].0 in flat && s[i].1 == multiset(flat)[s[i].0]) &&
      Distinct(Names(s)) &&
      (forall g | g in flat :: g in Names(s))
  {
    var t := Tally(flat);
    var s := SortDesc(t);
    TallyCounts(flat);
    SortDescSpec(t);
    SortedEntries(t, s, flat);
    SortedNamesDistinct(t, s);
    forall g | g in flat ensures g in Names(s) {
      assert g in Names(t);
      var k :| 0 <= k < |t| && Names(t)[k] == g;
      assert t[k] in multiset(s);
      var j :| 0 <= j < |s| && s[j] == t[k];
      assert Names(s)[j] == g;
    }
  }

  lemma SortedEntries(t: seq<(string, nat)>, s: seq<(string, nat)>, flat: seq<string>)
    requires multiset(s) == multiset(t) && Distinct(Names(t))
    requires forall k :: k in Names(t) <==> k in flat
    requires forall k :: CountOf(t, k) == multiset(flat)[k]
    ensures forall i | 0 <= i < |s| :: s[i].0 in flat && s[i].1 == multiset(flat)[s[i].0]
  {
    forall i | 0 <= i < |s| ensures s[i].0 in flat && s[i].1 == multiset(flat)[s[i].0] {
      assert s[i] in multiset(t);
      TallyEntry(t, s[i]);
      var k :| 0 <= k < |t| && t[k] == s[i];
      assert Names(t)[k] == s[i].0;
    }
  }

  lemma SortedNamesDistinct(t: seq<(string, nat)>, s: seq<(string, nat)>)
    requires multiset(s) == multiset(t) && Distinct(Names(t))
    ensures Distinct(Names(s))
  {
    NamesDistinctEntries(t);
    forall i, j | 0 <= i < j < |s| ensures Names(s)[i] != Names(s)[j] {
      if s[i].0 == s[j].0 {
        assert s[i] in multiset(t) && s[j] in multiset(t);
        TallyEntry(t, s[i]);
        TallyEntry(t, s[j]);
        assert s[i] == s[j];
        DistinctOnce(s, i, j);
        AtMostOnce(t, s[i]);
      }
    }
  }

  /** The five genres of the response: at most five, largest count first, each
      with its number of occurrences in the weighted list, each listed once,
      and no unlisted genre occurs more often than a listed one; fewer than five
      are listed only when the weighted list has fewer distinct genres. */
  lemma {:induction false} TopGenresSpec(groups: seq<ArtistGroup>)
    ensures var flat, top := GenresFlat(groups), TopGenres(groups);
      |top| <= TopCount &&
      SortedDesc(top) &&
      (forall i | 0 <= i < |top| :: top[i].0 in flat && top[i].1 == multiset(flat)[top[i].0]) &&
      Distinct(Names(top)) &&
      (forall g, i | g in flat && g !in Names(top) && 0 <= i < |top| :: multiset(flat)[g] <= top[i].1) &&
      (|top| < TopCount ==> forall g | g in flat :: g in Names(top))
  {
    var flat := GenresFlat(groups);
    SortedTally(flat);
    TopOfSorted(SortDesc(Tally(flat)), flat);
  }

  /** The first five entries of a sorted tally of `flat` keep its properties,
      and every genre left out is listed later, so with a count no larger. */
  lemma TopOfSorted(s: seq<(string, nat)>, flat: seq<string>)
    requires SortedDesc(s) && Distinct(Names(s))
    requires forall i | 0 <= i < |s| :: s[i].0 in flat && s[i].1 == multiset(flat)[s[i].0]
    requires forall g | g in flat :: g in Names(s)
    ensures var top := s[..Min(TopCount, |s|)];
      |top| <= TopCount &&
      SortedDesc(top) &&
      (forall i | 0 <= i < |top| :: top[i].0 in flat && top[i].1 == multiset(flat)[top[i].0]) &&
      Distinct(Names(top)) &&
      (forall g, i | g in flat && g !in Names(top) && 0 <= i < |top| :: multiset(flat)[g] <= top[i].1) &&
      (|top| < TopCount ==> forall g | g in flat :: g in Names(top))
  {
    var top := s[..Min(TopCount, |s|)];
    assert Names(top) == Names(s)[..|top|];
    forall g, i | g in flat && g !in Names(top) && 0 <= i < |top|
      ensures multiset(flat)[g] <= top[i].1
    {
      var j :| 0 <= j < |s| && Names(s)[j] == g;
      assert j >= |top|;
      assert top[i] == s[i];
    }
  }
}
