/** The result pipeline's derived state: the genre facet of the current
    results, the selection of active genres with its sentinel, and the
    filtered and sorted view (`filteredResults`) the list and the player read. */
module ResultView {
  import opened Catalog
  import opened Collation

  /** The selection value that means "do not filter by genre". */
  const All: string := "all"

  /** What an item without a collection name sorts as. */
  const NoInformation: string := "No information provided"

  // ---------------------------------------------------------------- facets

  /** `extractGenres`: every non-empty genre that some result carries. */
  function GenreFacet(results: seq<Item>): (g: set<string>)
    ensures forall x :: x in g <==>
      x != "" && exists i :: 0 <= i < |results| && results[i].primaryGenreName == x
  {
    set i | 0 <= i < |results| && results[i].primaryGenreName != "" :: results[i].primaryGenreName
  }

  /** A selection of active genres the component can be in: never empty, and
      the sentinel only ever on its own. */
  predicate WellFormedSelection(active: set<string>)
  {
    active != {} && (All in active ==> active == {All})
  }

  /** `toggleGenre`: the selection after the user clicks `genre`. */
  function ToggledGenres(active: set<string>, genre: string): (r: set<string>)
    ensures WellFormedSelection(r)
    ensures genre == All ==> r == {All}
    ensures genre != All ==> (genre in r <==> genre !in active)
    ensures genre != All ==> forall g :: g != All && g != genre ==> (g in r <==> g in active)
    ensures genre != All ==> (All in r <==> genre in active && active - {All} <= {genre})
  {
    if genre == All then {All}
    else
      var updated := active - {All};
      if genre in updated then
        var removed := updated - {genre};
        if removed == {} then {All} else removed
      else
        updated + {genre}
  }

  // ------------------------------------------------------------ facet filter

  /** The item's genre is present and selected. */
  predicate GenreActive(x: Item, active: set<string>)
  {
    x.primaryGenreName != "" && x.primaryGenreName in active
  }

  /** The filter step is skipped: the sentinel is selected, or the results
      carried no genre at all. */
  predicate Unfiltered(available: set<string>, active: set<string>)
  {
    All in active || available == {}
  }

  /** The item survives the filter step. */
  predicate Shown(x: Item, available: set<string>, active: set<string>)
  {
    Unfiltered(available, active) || GenreActive(x, active)
  }

  /** `results.filter(...)`: the items whose genre is selected, in order. */
  function KeepActive(s: seq<Item>, active: set<string>): (r: seq<Item>)
    ensures forall x :: multiset(r)[x] == if GenreActive(x, active) then multiset(s)[x] else 0
    ensures |r| <= |s|
  {
    if s == [] then []
    else
      assert s == [s[0]] + s[1..];
      (if GenreActive(s[0], active) then [s[0]] else []) + KeepActive(s[1..], active)
  }

  /** The first step of `filteredResults`: exactly the shown items of the
      search results, each as often as it occurs there, nothing added. */
  function FilterStep(results: seq<Item>, available: set<string>, active: set<string>): (r: seq<Item>)
    ensures forall x ::
      multiset(r)[x] == if Shown(x, available, active) then multiset(results)[x] else 0
  {
    if Unfiltered(available, active) then results else KeepActive(results, active)
  }

  // ---------------------------------------------------------------- ordering

  /** The three orderings of `filteredResults`. */
  datatype SortMode = Original | ByCollection | ByPrice

  /** The `switch` on `sortOption`: any value other than the two named ones
      falls to the `default` branch, the original order. */
  function ModeOf(option: string): (m: SortMode)
    ensures m == ByCollection <==> option == "collection"
    ensures m == ByPrice <==> option == "price"
  {
    if option == "collection" then ByCollection
    else if option == "price" then ByPrice
    else Original
  }

  /** A sort key: a number (a position or a price) or a text. */
  datatype Key = Num(n: int) | Text(s: string)

  /** The key each comparator reads: the item's position in the original
      results (by trackId, -1 when absent), its collection name with the
      placeholder for a missing one, or its price with 0 for a missing one. */
  function KeyOf(mode: SortMode, orig: seq<Item>, x: Item): (k: Key)
    ensures mode == Original ==> k.Num? && -1 <= k.n < |orig|
    ensures mode == Original && k.n >= 0 ==> orig[k.n].trackId == x.trackId
    ensures mode == Original && k.n >= 0 ==> forall i :: 0 <= i < k.n ==> orig[i].trackId != x.trackId
    ensures mode == Original ==> (k.n == -1 <==> forall i :: 0 <= i < |orig| ==> orig[i].trackId != x.trackId)
    ensures mode == ByCollection ==> k.Text? && k.s != ""
    ensures mode == ByCollection && x.collectionName != "" ==> k.s == x.collectionName
    ensures mode == ByCollection && x.collectionName == "" ==> k.s == NoInformation
    ensures mode == ByPrice ==> k.Num? && (Truthy(x.trackPrice) ==> k.n == x.trackPrice.value)
    ensures mode == ByPrice && !Truthy(x.trackPrice) ==> k.n == 0
  {
    match mode
    case Original => Num(IndexOfId(orig, x.trackId))
    case ByCollection => Text(if x.collectionName == "" then NoInformation else x.collectionName)
    case ByPrice => Num(match x.trackPrice case None => 0 case Some(p) => p)
  }

  /** The comparators' order on keys (one mode only ever produces one kind). */
  predicate KeyLe(a: Key, b: Key)
  {
    match (a, b)
    case (Num(m), Num(n)) => m <= n
    case (Text(s), Text(t)) => StrLe(s, t)
    case (Num(_), Text(_)) => true
    case (Text(_), Num(_)) => false
  }

  lemma KeyLeTotal(a: Key, b: Key)
    ensures KeyLe(a, b) || KeyLe(b, a)
  {
    if a.Text? && b.Text? {
      StrLeTotal(a.s, b.s);
    }
  }

  lemma KeyLeTransitive(a: Key, b: Key, c: Key)
    requires KeyLe(a, b) && KeyLe(b, c)
    ensures KeyLe(a, c)
  {
    if a.Text? && b.Text? && c.Text? {
      StrLeTransitive(a.s, b.s, c.s);
    }
  }

  /** `a` may precede `b`: the comparator does not return a positive number. */
  predicate Le(mode: SortMode, orig: seq<Item>, a: Item, b: Item)
  {
    KeyLe(KeyOf(mode, orig, a), KeyOf(mode, orig, b))
  }

  /** The comparator of `mode` as a relation on items. */
  function Comparator(mode: SortMode, orig: seq<Item>): (Item, Item) -> bool
  {
    (a: Item, b: Item) => Le(mode, orig, a, b)
  }

  /** A relation any two elements are related by, in one direction at least,
      and that is transitive: what a consistent comparator describes. */
  ghost predicate TotalPreorder<T(!new)>(le: (T, T) -> bool)
  {
    && (forall a, b :: le(a, b) || le(b, a))
    && (forall a, b, c :: le(a, b) && le(b, c) ==> le(a, c))
  }

  /** Each of the three comparators is consistent. */
  lemma ComparatorIsPreorder(mode: SortMode, orig: seq<Item>)
    ensures TotalPreorder(Comparator(mode, orig))
  {
    var le := Comparator(mode, orig);
    forall a, b ensures le(a, b) || le(b, a) {
      KeyLeTotal(KeyOf(mode, orig, a), KeyOf(mode, orig, b));
    }
    forall a, b, c | le(a, b) && le(b, c) ensures le(a, c) {
      KeyLeTransitive(KeyOf(mode, orig, a), KeyOf(mode, orig, b), KeyOf(mode, orig, c));
    }
  }

  /** Ascending by `le`. */
  ghost predicate Sorted<T>(le: (T, T) -> bool, s: seq<T>)
  {
    forall i, j :: 0 <= i < j < |s| ==> le(s[i], s[j])
  }

  /** Places `x` before the first element it may precede, so that it stays
      ahead of every element with an equal key. */
  function Insert<T(==)>(le: (T, T) -> bool, x: T, s: seq<T>): (r: seq<T>)
    ensures |r| == |s| + 1
    ensures multiset(r) == multiset(s) + multiset{x}
  {
    if s == [] then [x]
    else if le(x, s[0]) then [x] + s
    else
      assert s == [s[0]] + s[1..];
      [s[0]] + Insert(le, x, s[1..])
  }

  /** `Array.prototype.sort` with a comparator. The engine's sort is stable,
      and a stable sort by a total preorder has exactly one result, so this
      insertion sort computes what the engine computes. */
  function Sort<T(==)>(le: (T, T) -> bool, s: seq<T>): (r: seq<T>)
    ensures |r| == |s|
    ensures multiset(r) == multiset(s)
  {
    if s == [] then []
    else
      assert s == [s[0]] + s[1..];
      Insert(le, s[0], Sort(le, s[1..]))
  }

  lemma {:induction false} InsertSorted<T(!new)>(le: (T, T) -> bool, x: T, s: seq<T>)
    requires TotalPreorder(le)
    requires Sorted(le, s)
    ensures Sorted(le, Insert(le, x, s))
  {
    if s == [] {
    } else if le(x, s[0]) {
      var r := [x] + s;
      forall i, j | 0 <= i < j < |r| ensures le(r[i], r[j]) {
        if i == 0 {
          assert le(s[0], s[j - 1]) || j == 1;
        } else {
          assert r[i] == s[i - 1] && r[j] == s[j - 1];
        }
      }
    } else {
      var t := Insert(le, x, s[1..]);
      InsertSorted(le, x, s[1..]);
      var r := [s[0]] + t;
      forall i, j | 0 <= i < j < |r| ensures le(r[i], r[j]) {
        if i == 0 {
          var y := r[j];
          assert y in multiset(t);
          assert y == x || y in multiset(s[1..]);
          if y != x {
            var k :| 0 <= k < |s[1..]| && s[1..][k] == y;
            assert s[k + 1] == y;
          }
        } else {
          assert r[i] == t[i - 1] && r[j] == t[j - 1];
        }
      }
    }
  }

  /** The sort yields an ascending sequence. */
  lemma {:induction false} SortSorted<T(!new)>(le: (T, T) -> bool, s: seq<T>)
    requires TotalPreorder(le)
    ensures Sorted(le, Sort(le, s))
  {
    if s != [] {
      SortSorted(le, s[1..]);
      InsertSorted(le, s[0], Sort(le, s[1..]));
    }
  }

  /** The elements of `s` that compare equal to `k`, in their order in `s`. */
  function Ties<T>(le: (T, T) -> bool, s: seq<T>, k: T): seq<T>
  {
    if s == [] then []
    else (if le(s[0], k) && le(k, s[0]) then [s[0]] else []) + Ties(le, s[1..], k)
  }

  /** Under a total preorder, an element that does not precede `y` cannot tie
      with the same key as `y`. */
  lemma NotBothTie<T(!new)>(le: (T, T) -> bool, x: T, y: T, k: T)
    requires TotalPreorder(le)
    requires !le(x, y)
    ensures !(le(x, k) && le(k, x)) || !(le(y, k) && le(k, y))
  {
    assert le(x, k) && le(k, y) ==> le(x, y);
  }

  lemma {:induction false} InsertStable<T(!new)>(le: (T, T) -> bool, x: T, s: seq<T>, k: T)
    requires TotalPreorder(le)
    ensures Ties(le, Insert(le, x, s), k) ==
      (if le(x, k) && le(k, x) then [x] else []) + Ties(le, s, k)
  {
    if s == [] {
    } else if le(x, s[0]) {
      var r := [x] + s;
      assert r[0] == x && r[1..] == s;
    } else {
      var t := Insert(le, x, s[1..]);
      var r := [s[0]] + t;
      assert r[0] == s[0] && r[1..] == t;
      var tx := if le(x, k) && le(k, x) then [x] else [];
      var ty := if le(s[0], k) && le(k, s[0]) then [s[0]] else [];
      InsertStable(le, x, s[1..], k);
      assert Ties(le, r, k) == ty + (tx + Ties(le, s[1..], k));
      assert Ties(le, s, k) == ty + Ties(le, s[1..], k);
      NotBothTie(le, x, s[0], k);
      if tx == [] {
        assert tx + Ties(le, s[1..], k) == Ties(le, s[1..], k);
        assert tx + Ties(le, s, k) == Ties(le, s, k);
      } else {
        assert ty == [];
        assert ty + (tx + Ties(le, s[1..], k)) == tx + Ties(le, s[1..], k);
        assert Ties(le, s, k) == Ties(le, s[1..], k);
      }
    }
  }

  /** The sort is stable: elements that compare equal keep their relative
      order. */
  lemma {:induction false} SortStable<T(!new)>(le: (T, T) -> bool, s: seq<T>, k: T)
    requires TotalPreorder(le)
    ensures Ties(le, Sort(le, s), k) == Ties(le, s, k)
  {
    if s != [] {
      SortStable(le, s[1..], k);
      InsertStable(le, s[0], Sort(le, s[1..]), k);
    }
  }

  /** Sorting a sequence that is already ascending changes nothing. */
  lemma {:induction false} SortOfSorted<T(!new)>(le: (T, T) -> bool, s: seq<T>)
    requires Sorted(le, s)
    ensures Sort(le, s) == s
  {
    if s != [] {
      assert Sorted(le, s[1..]) by {
        forall i, j | 0 <= i < j < |s[1..]| ensures le(s[1..][i], s[1..][j]) {
          assert s[1..][i] == s[i + 1] && s[1..][j] == s[j + 1];
        }
      }
      SortOfSorted(le, s[1..]);
      if |s| > 1 {
        assert le(s[0], s[1]);
        assert s == [s[0]] + s[1..];
      }
    }
  }

  // ------------------------------------------------------------------- view

  /** `filteredResults`: the shown search results, ordered by `option`. */
  function View(results: seq<Item>, orig: seq<Item>, available: set<string>,
                active: set<string>, option: string): (r: seq<Item>)
    ensures forall x ::
      multiset(r)[x] == if Shown(x, available, active) then multiset(results)[x] else 0
    ensures Sorted(Comparator(ModeOf(option), orig), r)
  {
    var le := Comparator(ModeOf(option), orig);
    var filtered := FilterStep(results, available, active);
    ComparatorIsPreorder(ModeOf(option), orig);
    SortSorted(le, filtered);
    Sort(le, filtered)
  }

  lemma {:induction false} TiesAppend<T>(le: (T, T) -> bool, a: seq<T>, b: seq<T>, k: T)
    ensures Ties(le, a + b, k) == Ties(le, a, k) + Ties(le, b, k)
  {
    if a == [] {
      assert a + b == b;
    } else {
      assert (a + b)[0] == a[0] && (a + b)[1..] == a[1..] + b;
      TiesAppend(le, a[1..], b, k);
    }
  }

  lemma {:induction false} KeepActiveAppend(a: seq<Item>, b: seq<Item>, active: set<string>)
    ensures KeepActive(a + b, active) == KeepActive(a, active) + KeepActive(b, active)
  {
    if a == [] {
      assert a + b == b;
    } else {
      assert (a + b)[0] == a[0] && (a + b)[1..] == a[1..] + b;
      KeepActiveAppend(a[1..], b, active);
    }
  }

  /** For one item, filtering and picking the ties with `k` commute. */
  lemma TiesKeepActiveOne(le: (Item, Item) -> bool, x: Item, active: set<string>, k: Item)
    ensures Ties(le, KeepActive([x], active), k) == KeepActive(Ties(le, [x], k), active)
  {
    assert [x][1..] == [];
    var kept := if GenreActive(x, active) then [x] else [];
    assert KeepActive([x], active) == kept;
    if kept != [] { assert kept[1..] == []; }
    var tied := if le(x, k) && le(k, x) then [x] else [];
    assert Ties(le, [x], k) == tied;
    if tied != [] { assert tied[1..] == []; }
  }

  /** The genre filter keeps search order: the items tying with `k` that it
      keeps are those of the results, in the same order. */
  lemma {:induction false} TiesKeepActive(le: (Item, Item) -> bool, s: seq<Item>, active: set<string>, k: Item)
    ensures Ties(le, KeepActive(s, active), k) == KeepActive(Ties(le, s, k), active)
  {
    if s != [] {
      var x := s[0];
      var rest := s[1..];
      assert s == [x] + rest;
      KeepActiveAppend([x], rest, active);
      TiesAppend(le, [x], rest, k);
      TiesAppend(le, KeepActive([x], active), KeepActive(rest, active), k);
      KeepActiveAppend(Ties(le, [x], k), Ties(le, rest, k), active);
      TiesKeepActiveOne(le, x, active, k);
      TiesKeepActive(le, rest, active, k);
    }
  }

  /** Items whose sort keys are equal appear in the view in the order the
      search results hold them: the view's ties with `k` are the filter's
      output on the results' ties with `k`. */
  lemma ViewStable(results: seq<Item>, orig: seq<Item>, available: set<string>,
                   active: set<string>, option: string, k: Item)
    ensures var le := Comparator(ModeOf(option), orig);
      Ties(le, View(results, orig, available, active, option), k)
      == FilterStep(Ties(le, results, k), available, active)
  {
    var le := Comparator(ModeOf(option), orig);
    ComparatorIsPreorder(ModeOf(option), orig);
    SortStable(le, FilterStep(results, available, active), k);
    if !Unfiltered(available, active) {
      TiesKeepActive(le, results, active, k);
    }
  }

  /** With the sentinel selected, or no genre in the results, the view holds
      every search result. */
  lemma ViewUnfiltered(results: seq<Item>, orig: seq<Item>, available: set<string>,
                       active: set<string>, option: string)
    requires Unfiltered(available, active)
    ensures multiset(View(results, orig, available, active, option)) == multiset(results)
  {
    var r := View(results, orig, available, active, option);
    forall x ensures multiset(r)[x] == multiset(results)[x] {
      assert Shown(x, available, active);
    }
  }

  /** What `orig[j..]` keeps comes from there, so its ids are found at `j` or
      later. */
  lemma KeptFromSuffix(orig: seq<Item>, active: set<string>, j: int, y: Item)
    requires DistinctIds(orig)
    requires 0 <= j <= |orig|
    requires y in KeepActive(orig[j..], active)
    ensures IndexOfId(orig, y.trackId) >= j
  {
    var s := orig[j..];
    assert multiset(KeepActive(s, active))[y] > 0;
    assert y in multiset(s);
    var i :| 0 <= i < |s| && s[i] == y;
    assert orig[j + i] == y;
    IndexOfIdAt(orig, j + i);
  }

  /** The original ordering compares the positions the ids are found at. */
  lemma OriginalLe(orig: seq<Item>, a: Item, b: Item)
    requires IndexOfId(orig, a.trackId) <= IndexOfId(orig, b.trackId)
    ensures Comparator(Original, orig)(a, b)
  {
  }

  /** An element that may precede every element of an ascending sequence
      may be put in front of it. */
  lemma ConsSorted<T>(le: (T, T) -> bool, x: T, rest: seq<T>)
    requires Sorted(le, rest)
    requires forall b :: 0 <= b < |rest| ==> le(x, rest[b])
    ensures Sorted(le, [x] + rest)
  {
    var r := [x] + rest;
    forall a, b | 0 <= a < b < |r| ensures le(r[a], r[b]) {
      assert r[b] == rest[b - 1];
      if a > 0 {
        assert r[a] == rest[a - 1];
      }
    }
  }

  /** The items that `orig[j..]` keeps sit in the order of `orig`, by the
      position their ids are found at. */
  lemma {:induction false} KeepActiveInOriginalOrder(orig: seq<Item>, active: set<string>, j: int)
    requires DistinctIds(orig)
    requires 0 <= j <= |orig|
    ensures Sorted(Comparator(Original, orig), KeepActive(orig[j..], active))
    decreases |orig| - j
  {
    if j < |orig| {
      var le := Comparator(Original, orig);
      var s := orig[j..];
      assert s[1..] == orig[j + 1..];
      var rest := KeepActive(orig[j + 1..], active);
      KeepActiveInOriginalOrder(orig, active, j + 1);
      if GenreActive(orig[j], active) {
        assert KeepActive(s, active) == [orig[j]] + rest;
        IndexOfIdAt(orig, j);
        forall b | 0 <= b < |rest| ensures le(orig[j], rest[b]) {
          KeptFromSuffix(orig, active, j + 1, rest[b]);
          OriginalLe(orig, orig[j], rest[b]);
        }
        ConsSorted(le, orig[j], rest);
      } else {
        assert KeepActive(s, active) == rest;
      }
    }
  }

  /** With the original ordering, and the original results a copy of the
      search results whose ids are distinct, the view is the filter's output
      unchanged: the shown items in the order the search returned them. */
  lemma ViewOriginalOrder(results: seq<Item>, available: set<string>,
                          active: set<string>, option: string)
    requires DistinctIds(results)
    requires ModeOf(option) == Original
    ensures View(results, results, available, active, option) == FilterStep(results, available, active)
  {
    var le := Comparator(Original, results);
    if Unfiltered(available, active) {
      forall a, b | 0 <= a < b < |results| ensures le(results[a], results[b]) {
        IndexOfIdAt(results, a);
        IndexOfIdAt(results, b);
      }
    } else {
      assert results[0..] == results;
      KeepActiveInOriginalOrder(results, active, 0);
    }
    SortOfSorted(le, FilterStep(results, available, active));
  }

  /** The view holds as many items as the filter step lets through. */
  lemma ViewLength(results: seq<Item>, orig: seq<Item>, available: set<string>,
                   active: set<string>, option: string)
    ensures |View(results, orig, available, active, option)| == |FilterStep(results, available, active)|
  {
    var v := View(results, orig, available, active, option);
    var f := FilterStep(results, available, active);
    assert multiset(v) == multiset(f) by {
      forall x ensures multiset(v)[x] == multiset(f)[x] { }
    }
    assert |multiset(v)| == |multiset(f)|;
  }

  /** Three results with the genres Pop, Pop and Rock offer the facets Pop
      and Rock. */
  lemma PopRockFacet(results: seq<Item>)
    requires |results| == 3
    requires results[0].primaryGenreName == "Pop" && results[1].primaryGenreName == "Pop"
    requires results[2].primaryGenreName == "Rock"
    ensures GenreFacet(results) == {"Pop", "Rock"}
  {
    var g := GenreFacet(results);
    assert "Pop" in g && "Rock" in g;
    forall x | x in g ensures x == "Pop" || x == "Rock" {
      var i :| 0 <= i < 3 && results[i].primaryGenreName == x;
    }
  }

  /** Selecting Pop among those three lets the two Pop results through. */
  lemma PopRockFilter(results: seq<Item>)
    requires |results| == 3
    requires results[0].primaryGenreName == "Pop" && results[1].primaryGenreName == "Pop"
    requires results[2].primaryGenreName == "Rock"
    ensures FilterStep(results, {"Pop", "Rock"}, {"Pop"}) == results[..2]
  {
    var s := results;
    assert KeepActive(s[2..], {"Pop"}) == [] by {
      assert s[2..][1..] == [];
    }
    assert s[1..][1..] == s[2..] && s[1..][0] == s[1];
    assert KeepActive(s[1..], {"Pop"}) == [s[1]];
  }

  /** Clicking Pop on a fresh selection leaves a view of the two Pop
      results. */
  lemma PopRockView(results: seq<Item>)
    requires |results| == 3
    requires results[0].primaryGenreName == "Pop" && results[1].primaryGenreName == "Pop"
    requires results[2].primaryGenreName == "Rock"
    ensures ToggledGenres({All}, "Pop") == {"Pop"}
    ensures |View(results, results, {"Pop", "Rock"}, {"Pop"}, "original")| == 2
  {
    ViewLength(results, results, {"Pop", "Rock"}, {"Pop"}, "original");
    PopRockFilter(results);
  }
}
