/** The two lists the component edits in place: the search history (most
    recent query first, a resubmitted query moved to the front) and the
    favorites (toggled by an identity that is "same trackId, or same truthy
    collectionId"). */
module Lists {
  import opened Catalog

  // ------------------------------------------------------------- splicing

  /** The position `Array.prototype.splice(index, 1)` starts at: a negative
      index counts back from the end (and stops at 0), a large one stops at
      the length. */
  function SpliceStart(n: nat, index: int): (p: nat)
    ensures p <= n
  {
    if index < 0 then (if n + index < 0 then 0 else n + index)
    else if index > n then n
    else index
  }

  /** `s.splice(index, 1)`: removes at most one element, the one at the start
      position, and keeps the others in order. */
  function Splice1<T>(s: seq<T>, index: int): (r: seq<T>)
    ensures 0 <= index < |s| ==> r == s[..index] + s[index + 1..]
    ensures -|s| <= index < 0 ==> r == s[..|s| + index] + s[|s| + index + 1..]
    ensures index < -|s| && s != [] ==> r == s[1..]
    ensures index >= |s| ==> r == s
    ensures |r| == if SpliceStart(|s|, index) < |s| then |s| - 1 else |s|
  {
    var p := SpliceStart(|s|, index);
    if p < |s| then s[..p] + s[p + 1..] else s
  }

  /** Splicing never adds an element. */
  lemma Splice1Shrinks<T>(s: seq<T>, index: int)
    ensures multiset(Splice1(s, index)) <= multiset(s)
  {
    var p := SpliceStart(|s|, index);
    if p < |s| {
      assert s == s[..p] + [s[p]] + s[p + 1..];
    }
  }

  // --------------------------------------------------------------- history

  /** `history.indexOf(q)`: the first position holding `q`, or -1. */
  function IndexOf(h: seq<string>, q: string): (r: int)
    ensures -1 <= r < |h|
    ensures r >= 0 ==> h[r] == q && forall j :: 0 <= j < r ==> h[j] != q
    ensures r == -1 <==> q !in h
  {
    if h == [] then -1
    else if h[0] == q then 0
    else
      var k := IndexOf(h[1..], q);
      assert q in h[1..] ==> q in h;
      if k == -1 then -1 else k + 1
  }

  /** `updateSearchHistory`: the first occurrence of `q` is taken out and `q`
      is put in front. */
  function Promoted(h: seq<string>, q: string): (r: seq<string>)
    ensures |r| > 0 && r[0] == q
    ensures |r| == if q in h then |h| else |h| + 1
  {
    var i := IndexOf(h, q);
    [q] + (if i >= 0 then h[..i] + h[i + 1..] else h)
  }

  /** `s` without any occurrence of `q`. */
  function Without(s: seq<string>, q: string): seq<string>
  {
    if s == [] then []
    else (if s[0] == q then [] else [s[0]]) + Without(s[1..], q)
  }

  lemma {:induction false} WithoutAppend(a: seq<string>, b: seq<string>, q: string)
    ensures Without(a + b, q) == Without(a, q) + Without(b, q)
  {
    if a != [] {
      assert (a + b)[0] == a[0] && (a + b)[1..] == a[1..] + b;
      WithoutAppend(a[1..], b, q);
    } else {
      assert a + b == b;
    }
  }

  /** Promoting a query leaves every other entry where it was relative to the
      rest. */
  lemma PromotedKeepsOrder(h: seq<string>, q: string)
    ensures Without(Promoted(h, q), q) == Without(h, q)
  {
    var i := IndexOf(h, q);
    var r := Promoted(h, q);
    assert r[0] == q && r == [q] + r[1..];
    if i >= 0 {
      assert h == h[..i] + [h[i]] + h[i + 1..];
      WithoutAppend(h[..i] + [h[i]], h[i + 1..], q);
      WithoutAppend(h[..i], [h[i]], q);
      WithoutAppend(h[..i], h[i + 1..], q);
      assert Without([h[i]], q) == [];
    }
  }

  /** The query occurs once more than before, less the one occurrence taken
      out: exactly once afterwards when it occurred at most once before. */
  lemma PromotedCount(h: seq<string>, q: string)
    ensures multiset(Promoted(h, q))[q] == if q in h then multiset(h)[q] else 1
    ensures multiset(h)[q] <= 1 ==> multiset(Promoted(h, q))[q] == 1
  {
    var i := IndexOf(h, q);
    if i >= 0 {
      var rest := h[..i] + h[i + 1..];
      assert h == h[..i] + [h[i]] + h[i + 1..];
      assert multiset(h) == multiset(rest) + multiset{q};
      assert Promoted(h, q) == [q] + rest;
      assert multiset(Promoted(h, q)) == multiset{q} + multiset(rest);
    } else {
      assert multiset(h)[q] == 0;
      assert multiset(Promoted(h, q)) == multiset{q} + multiset(h);
    }
  }

  /** Resubmitting "b" to the history ["a", "b", "c"] moves it to the
      front without duplicating it. */
  lemma PromotedMovesToFront()
    ensures Promoted(["a", "b", "c"], "b") == ["b", "a", "c"]
  {
    assert IndexOf(["a", "b", "c"], "b") == 1;
  }

  /** No entry occurs twice. */
  predicate Distinct(h: seq<string>)
  {
    forall i, j :: 0 <= i < j < |h| ==> h[i] != h[j]
  }

  /** Taking one entry out of a history without repetitions leaves one
      without repetitions, and without that entry. */
  lemma DropDistinct(h: seq<string>, i: int)
    requires Distinct(h) && 0 <= i < |h|
    ensures Distinct(h[..i] + h[i + 1..])
    ensures h[i] !in h[..i] + h[i + 1..]
  {
    var r := h[..i] + h[i + 1..];
    forall a | 0 <= a < |r| ensures r[a] == h[if a < i then a else a + 1] { }
    forall a, b | 0 <= a < b < |r| ensures r[a] != r[b] {
      assert r[a] == h[if a < i then a else a + 1];
      assert r[b] == h[if b < i then b else b + 1];
    }
    forall a | 0 <= a < |r| ensures r[a] != h[i] {
      assert r[a] == h[if a < i then a else a + 1];
    }
  }

  /** Putting a new entry in front keeps a history without repetitions so. */
  lemma ConsDistinct(q: string, rest: seq<string>)
    requires Distinct(rest) && q !in rest
    ensures Distinct([q] + rest)
  {
    var r := [q] + rest;
    forall a, b | 0 <= a < b < |r| ensures r[a] != r[b] {
      assert r[b] == rest[b - 1];
      if a > 0 { assert r[a] == rest[a - 1]; }
    }
  }

  /** A history without repetitions stays so under promotion. */
  lemma PromotedKeepsDistinct(h: seq<string>, q: string)
    requires Distinct(h)
    ensures Distinct(Promoted(h, q))
  {
    var i := IndexOf(h, q);
    if i >= 0 {
      DropDistinct(h, i);
      ConsDistinct(q, h[..i] + h[i + 1..]);
    } else {
      ConsDistinct(q, h);
    }
  }

  /** Deleting an entry keeps a history without repetitions so. */
  lemma Splice1KeepsDistinct(h: seq<string>, index: int)
    requires Distinct(h)
    ensures Distinct(Splice1(h, index))
  {
    var p := SpliceStart(|h|, index);
    if p < |h| {
      DropDistinct(h, p);
    }
  }

  /** `topFiveHistory`: `history.slice(0, 5)`, the five most recent queries. */
  function TopFive(h: seq<string>): (r: seq<string>)
    ensures |r| <= 5 && |r| <= |h|
    ensures forall i :: 0 <= i < |r| ==> r[i] == h[i]
    ensures |h| >= 5 ==> |r| == 5
    ensures |r| < 5 ==> r == h
  {
    if |h| <= 5 then h else h[..5]
  }

  // ------------------------------------------------------------- favorites

  /** The identity `toggleFavorite` and `isFavorite` use: same trackId (two
      absent ids count as the same), or the favorite's collectionId is truthy
      and equal to the item's. */
  predicate Matches(fav: Item, item: Item)
    ensures fav == item ==> Matches(fav, item)
    ensures fav.trackId != item.trackId && !Truthy(item.collectionId) ==> !Matches(fav, item)
  {
    fav.trackId == item.trackId || (Truthy(fav.collectionId) && fav.collectionId == item.collectionId)
  }

  /** `favorites.findIndex(...)`: the first matching favorite, or -1. */
  function FindMatch(favs: seq<Item>, item: Item): (r: int)
    ensures -1 <= r < |favs|
    ensures r >= 0 ==> Matches(favs[r], item) && forall j :: 0 <= j < r ==> !Matches(favs[j], item)
    ensures r == -1 <==> forall j :: 0 <= j < |favs| ==> !Matches(favs[j], item)
  {
    if favs == [] then -1
    else if Matches(favs[0], item) then 0
    else
      var k := FindMatch(favs[1..], item);
      if k == -1 then -1 else k + 1
  }

  /** `isFavorite`: `favorites.some(...)` with the same identity. */
  predicate IsFavorite(favs: seq<Item>, item: Item)
    ensures IsFavorite(favs, item) <==> FindMatch(favs, item) >= 0
    ensures item in favs ==> IsFavorite(favs, item)
  {
    exists i :: 0 <= i < |favs| && Matches(favs[i], item)
  }

  /** `toggleFavorite`: the first matching favorite is taken out, or, when
      there is none, the item is appended. */
  function ToggledFavorites(favs: seq<Item>, item: Item): (r: seq<Item>)
    ensures IsFavorite(favs, item) ==> |r| == |favs| - 1
    ensures !IsFavorite(favs, item) ==> r == favs + [item]
  {
    var i := FindMatch(favs, item);
    if i >= 0 then favs[..i] + favs[i + 1..] else favs + [item]
  }

  /** When the item is a favorite, exactly its first match goes and the rest
      keep their order. */
  lemma ToggleRemovesFirstMatch(favs: seq<Item>, item: Item)
    requires IsFavorite(favs, item)
    ensures exists i :: 0 <= i < |favs| && Matches(favs[i], item)
                     && (forall j :: 0 <= j < i ==> !Matches(favs[j], item))
                     && ToggledFavorites(favs, item) == favs[..i] + favs[i + 1..]
  {
    var i := FindMatch(favs, item);
    assert i >= 0;
  }

  /** Where each element of `s` with position `i` taken out comes from. */
  lemma DropAt<T>(s: seq<T>, i: int, r: seq<T>)
    requires 0 <= i < |s| && r == s[..i] + s[i + 1..]
    ensures |r| == |s| - 1
    ensures forall a :: 0 <= a < |r| ==> r[a] == s[if a < i then a else a + 1]
  {
  }

  /** After taking out the favorite at `i`, the item is a favorite exactly
      when some other favorite matches it. */
  lemma FavoriteAfterDrop(favs: seq<Item>, item: Item, i: int, r: seq<Item>)
    requires 0 <= i < |favs| && r == favs[..i] + favs[i + 1..]
    ensures IsFavorite(r, item) <==> exists j :: 0 <= j < |favs| && j != i && Matches(favs[j], item)
  {
    DropAt(favs, i, r);
    if IsFavorite(r, item) {
      var k :| 0 <= k < |r| && Matches(r[k], item);
      var j := if k < i then k else k + 1;
      assert r[k] == favs[j];
    }
    if exists j :: 0 <= j < |favs| && j != i && Matches(favs[j], item) {
      var j :| 0 <= j < |favs| && j != i && Matches(favs[j], item);
      var k := if j < i then j else j - 1;
      assert r[k] == favs[j];
    }
  }

  /** Afterwards the item is a favorite exactly when some favorite other than
      the one taken out still matches it, or when it was appended. */
  lemma IsFavoriteAfterToggle(favs: seq<Item>, item: Item)
    ensures IsFavorite(ToggledFavorites(favs, item), item) <==>
      (!IsFavorite(favs, item) ||
       exists j :: 0 <= j < |favs| && j != FindMatch(favs, item) && Matches(favs[j], item))
  {
    var i := FindMatch(favs, item);
    var r := ToggledFavorites(favs, item);
    if i >= 0 {
      FavoriteAfterDrop(favs, item, i, r);
    } else {
      assert r[|favs|] == item;
    }
  }

  /** Toggling an item that is not a favorite twice gives the list back. */
  lemma ToggleTwiceRestores(favs: seq<Item>, item: Item)
    requires !IsFavorite(favs, item)
    ensures ToggledFavorites(ToggledFavorites(favs, item), item) == favs
  {
    var once := favs + [item];
    assert Matches(once[|favs|], item);
    var i := FindMatch(once, item);
    assert i == |favs|;
    assert once[..i] == favs;
  }

  /** No two favorites match each other. */
  predicate Unique(favs: seq<Item>)
  {
    forall i, j :: 0 <= i < j < |favs| ==> !Matches(favs[i], favs[j]) && !Matches(favs[j], favs[i])
  }

  /** Toggling keeps the favorites free of matching pairs. */
  lemma ToggleKeepsUnique(favs: seq<Item>, item: Item)
    requires Unique(favs)
    ensures Unique(ToggledFavorites(favs, item))
  {
    var i := FindMatch(favs, item);
    var r := ToggledFavorites(favs, item);
    if i >= 0 {
      forall a, b | 0 <= a < b < |r| ensures !Matches(r[a], r[b]) && !Matches(r[b], r[a]) {
        var a' := if a < i then a else a + 1;
        var b' := if b < i then b else b + 1;
        assert r[a] == favs[a'] && r[b] == favs[b'];
      }
    } else {
      forall a, b | 0 <= a < b < |r| ensures !Matches(r[a], r[b]) && !Matches(r[b], r[a]) {
        assert r[a] == favs[a];
        if b < |favs| {
          assert r[b] == favs[b];
        } else {
          assert r[b] == item && !Matches(favs[a], item);
        }
      }
    }
  }
}
