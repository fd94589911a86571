/** The decisions the player makes against the current view: which item
    `nextTrack` moves to, which item `shuffle` lands on, and the source's own
    `nextTrack` recursion, which does not terminate when the next item has no
    preview. */
module Playback {
  import opened Catalog

  /** A preview lasts 30 ticks of the one-second progress timer. */
  const Duration: nat := 30

  /** `shuffle` draws at most this many random indices. */
  const MaxAttempts: nat := 10

  /** The remainder of a number below twice the divisor. */
  lemma ModInRange(x: int, n: int)
    requires 0 <= x < 2 * n
    ensures x % n == if x < n then x else x - n
  {
    if x < n {
      assert x == 0 * n + x;
    } else {
      assert x == 1 * n + (x - n);
    }
  }

  // ---------------------------------------------------------- current item

  /** `isCurrentTrack`: something is loaded, and it shares a truthy trackId
      or a truthy collectionId with `track`. */
  function IsCurrent(current: Option<Item>, track: Item): (r: bool)
    ensures r ==> current.Some?
    ensures current == Some(track) ==> (r <==> Truthy(track.trackId) || Truthy(track.collectionId))
  {
    match current
    case None => false
    case Some(c) =>
      (Truthy(c.trackId) && c.trackId == track.trackId)
      || (Truthy(c.collectionId) && c.collectionId == track.collectionId)
  }

  // ------------------------------------------------------------- next item

  /** `filteredResults.findIndex(track => track.trackId ===
      currentTrack?.trackId)`: without a current track the id compared with is
      absent, and so matches an item whose id is absent. */
  function CurrentIndex(view: seq<Item>, current: Option<Item>): (i: int)
    ensures -1 <= i < |view|
    ensures i >= 0 ==> view[i].trackId == CurrentId(current)
    ensures i >= 0 ==> forall j :: 0 <= j < i ==> view[j].trackId != CurrentId(current)
    ensures i == -1 <==> forall j :: 0 <= j < |view| ==> view[j].trackId != CurrentId(current)
  {
    IndexOfId(view, CurrentId(current))
  }

  /** `currentTrack?.trackId`: absent when there is no current track. */
  function CurrentId(current: Option<Item>): Option<int>
  {
    match current case None => None case Some(t) => t.trackId
  }

  /** `(currentIndex + 1) % filteredResults.length`. */
  function NextIndex(view: seq<Item>, current: Option<Item>): (r: nat)
    requires |view| > 0
    ensures r < |view|
    ensures CurrentIndex(view, current) == -1 ==> r == 0
    ensures CurrentIndex(view, current) == |view| - 1 ==> r == 0
    ensures 0 <= CurrentIndex(view, current) < |view| - 1 ==> r == CurrentIndex(view, current) + 1
  {
    ModInRange(CurrentIndex(view, current) + 1, |view|);
    (CurrentIndex(view, current) + 1) % |view|
  }

  /** The item `j` places after position `ci`, wrapping round the view. */
  function Ahead(view: seq<Item>, ci: int, j: int): Item
    requires |view| > 0
  {
    view[(ci + j) % |view|]
  }

  /** The first item with a preview at offset `k`, `k + 1`, ..., `n` after
      position `ci`, wrapping around the view of length `n`; offset `n` is
      position `ci` itself. */
  function PlayableFrom(view: seq<Item>, ci: int, k: nat): (r: Option<nat>)
    requires |view| > 0 && -1 <= ci < |view|
    requires 1 <= k <= |view| + 1
    ensures r.Some? ==> r.value < |view| && HasPreview(view[r.value])
    ensures r.Some? ==> exists j :: k <= j <= |view| && HasPreview(Ahead(view, ci, j)) && r.value == (ci + j) % |view|
                                    && forall m :: k <= m < j ==> !HasPreview(Ahead(view, ci, m))
    ensures r.None? ==> forall j :: k <= j <= |view| ==> !HasPreview(Ahead(view, ci, j))
    decreases |view| + 1 - k
  {
    if k > |view| then None
    else if HasPreview(Ahead(view, ci, k)) then Some((ci + k) % |view|)
    else PlayableFrom(view, ci, k + 1)
  }

  /** The bounded form of the `nextTrack` skip: the first item with a preview
      after the current position, at most one lap round the view. */
  function NextPlayable(view: seq<Item>, ci: int): (r: Option<nat>)
    requires |view| > 0 && -1 <= ci < |view|
    ensures r.Some? ==> exists j :: 1 <= j <= |view| && HasPreview(Ahead(view, ci, j)) && r.value == (ci + j) % |view|
                                    && forall m :: 1 <= m < j ==> !HasPreview(Ahead(view, ci, m))
    ensures r.None? ==> forall j :: 1 <= j <= |view| ==> !HasPreview(Ahead(view, ci, j))
  {
    PlayableFrom(view, ci, 1)
  }

  /** Every position of the view is some offset in 1..n after `ci`. */
  lemma OffsetReaches(n: int, ci: int, i: int) returns (k: int)
    requires -1 <= ci < n && 0 <= i < n
    ensures 1 <= k <= n && (ci + k) % n == i
  {
    k := if i > ci then i - ci else n - ci + i;
    ModInRange(ci + k, n);
  }

  /** The bounded skip finds nothing exactly when no item of the view has a
      preview. */
  lemma NextPlayableNoneIffSilent(view: seq<Item>, ci: int)
    requires |view| > 0 && -1 <= ci < |view|
    ensures NextPlayable(view, ci).None? <==> forall i :: 0 <= i < |view| ==> !HasPreview(view[i])
  {
    if NextPlayable(view, ci).None? {
      forall i | 0 <= i < |view| ensures !HasPreview(view[i]) {
        var k := OffsetReaches(|view|, ci, i);
        assert Ahead(view, ci, k) == view[i];
      }
    }
  }

  /** When the next item has a preview, the bounded skip picks it, as the
      source does. */
  lemma NextPlayableImmediate(view: seq<Item>, current: Option<Item>)
    requires |view| > 0
    requires HasPreview(view[NextIndex(view, current)])
    ensures NextPlayable(view, CurrentIndex(view, current)) == Some(NextIndex(view, current))
  {
    ModInRange(CurrentIndex(view, current) + 1, |view|);
  }

  /** The bounded skip of `nextTrack`, as a loop: it stops after at most one
      lap and yields only an item with a preview. */
  method ScanNext(view: seq<Item>, current: Option<Item>) returns (found: Option<nat>)
    requires |view| > 0
    ensures found == NextPlayable(view, CurrentIndex(view, current))
  {
    var n := |view|;
    var ci := CurrentIndex(view, current);
    var k := 1;
    while k <= n && !HasPreview(Ahead(view, ci, k))
      invariant 1 <= k <= n + 1
      invariant PlayableFrom(view, ci, k) == NextPlayable(view, ci)
    {
      k := k + 1;
    }
    found := if k <= n then Some((ci + k) % n) else None;
  }

  // --------------------------------------------------------- the source's skip

  /** What one `nextTrack` call decides: nothing (empty view), restart the
      current item (repeat on), or play the item at a position. */
  datatype Advance = Stay | Replay | PlayAt(index: nat)

  /** `nextTrack` as the source writes it, with its recursion unfolded at
      most `fuel` times; None means the fuel ran out. The recursive call sees
      the same view and the same current track, since nothing it reads has
      changed in between. */
  function NextAsWritten(view: seq<Item>, current: Option<Item>, repeat: bool, fuel: nat): (r: Option<Advance>)
    ensures |view| == 0 <==> r == Some(Stay)
    ensures |view| > 0 && repeat ==> r == Some(Replay)
    ensures r.Some? && r.value.PlayAt? ==>
      |view| > 0 && r.value.index == NextIndex(view, current) && HasPreview(view[r.value.index])
  {
    if |view| == 0 then Some(Stay)
    else if repeat then Some(Replay)
    else
      var next := NextIndex(view, current);
      if HasPreview(view[next]) then Some(PlayAt(next))
      else if fuel == 0 then None
      else NextAsWritten(view, current, repeat, fuel - 1)
  }

  /** Once the next item lacks a preview, no amount of recursion returns:
      the source's `nextTrack` recurses forever. */
  lemma {:induction false} NextAsWrittenNeverReturns(view: seq<Item>, current: Option<Item>, fuel: nat)
    requires |view| > 0
    requires !HasPreview(view[NextIndex(view, current)])
    ensures NextAsWritten(view, current, false, fuel) == None
  {
    if fuel > 0 {
      NextAsWrittenNeverReturns(view, current, fuel - 1);
    }
  }

  /** A concrete case: a one-item view whose item has no preview, with
      nothing playing. */
  lemma NextAsWrittenLoopsOnSilentItem()
    ensures forall fuel: nat :: NextAsWritten([Item(None, None, "", "", "", None)], None, false, fuel) == None
  {
    var view := [Item(None, None, "", "", "", None)];
    forall fuel: nat ensures NextAsWritten(view, None, false, fuel) == None {
      NextAsWrittenNeverReturns(view, None, fuel);
    }
  }

  /** Wherever the source's recursion does return, the bounded skip agrees
      with it. */
  lemma {:induction false} NextPlayableAgreesWithSource(view: seq<Item>, current: Option<Item>, fuel: nat, i: nat)
    requires NextAsWritten(view, current, false, fuel) == Some(PlayAt(i))
    ensures |view| > 0 && NextPlayable(view, CurrentIndex(view, current)) == Some(i)
  {
    var next := NextIndex(view, current);
    if HasPreview(view[next]) {
      NextPlayableImmediate(view, current);
    } else {
      NextAsWrittenNeverReturns(view, current, fuel);
    }
  }

  // ---------------------------------------------------------------- shuffle

  /** What `Math.random` would yield: at least `MaxAttempts` indices, each in
      range for the view. */
  predicate ValidDraws(view: seq<Item>, draws: seq<nat>)
  {
    |draws| >= MaxAttempts && forall k :: 0 <= k < |draws| ==> draws[k] < |view|
  }

  /** The item `shuffle` plays: the first of the draws `a`, ..., 9 that lands
      on an item with a preview, or none. */
  function FirstPlayableDraw(view: seq<Item>, draws: seq<nat>, a: nat): (r: Option<nat>)
    requires ValidDraws(view, draws) && a <= MaxAttempts
    ensures r.Some? ==> r.value < |view| && HasPreview(view[r.value])
    ensures r.Some? ==> exists k :: a <= k < MaxAttempts && draws[k] == r.value
    ensures r.None? <==> forall k :: a <= k < MaxAttempts ==> !HasPreview(view[draws[k]])
    decreases MaxAttempts - a
  {
    if a == MaxAttempts then None
    else if HasPreview(view[draws[a]]) then Some(draws[a])
    else FirstPlayableDraw(view, draws, a + 1)
  }

  lemma {:induction false} FirstPlayableDrawSkips(view: seq<Item>, draws: seq<nat>, a: nat)
    requires ValidDraws(view, draws) && a <= MaxAttempts
    requires forall k :: 0 <= k < a ==> !HasPreview(view[draws[k]])
    ensures FirstPlayableDraw(view, draws, 0) == FirstPlayableDraw(view, draws, a)
  {
    if a > 0 {
      FirstPlayableDrawSkips(view, draws, a - 1);
    }
  }

  /** The `do ... while` loop of `shuffle`: it draws until an item with a
      preview comes up or ten draws are spent. */
  method PickShuffle(view: seq<Item>, draws: seq<nat>) returns (index: nat, attempts: nat)
    requires |view| > 0 && ValidDraws(view, draws)
    ensures 1 <= attempts <= MaxAttempts
    ensures index == draws[attempts - 1]
    ensures forall k :: 0 <= k < attempts - 1 ==> !HasPreview(view[draws[k]])
    ensures HasPreview(view[index]) || attempts == MaxAttempts
    ensures FirstPlayableDraw(view, draws, 0) == if HasPreview(view[index]) then Some(index) else None
  {
    index := draws[0];
    attempts := 1;
    while !HasPreview(view[index]) && attempts < MaxAttempts
      invariant 1 <= attempts <= MaxAttempts
      invariant index == draws[attempts - 1]
      invariant forall k :: 0 <= k < attempts - 1 ==> !HasPreview(view[draws[k]])
    {
      index := draws[attempts];
      attempts := attempts + 1;
    }
    FirstPlayableDrawSkips(view, draws, attempts - 1);
  }
}
