/** The records the catalog search service returns, and the lookups the
    component performs on sequences of them. */
module Catalog {

  datatype Option<T> = None | Some(value: T)

  /** One result record. A string field the response leaves out is the empty
      string here: the component only ever tests such a field for truthiness,
      and both an absent field and "" are falsy. A number field the response
      leaves out is None. Prices are integer cents. */
  datatype Item = Item(
    trackId: Option<int>,
    collectionId: Option<int>,
    primaryGenreName: string,
    previewUrl: string,
    collectionName: string,
    trackPrice: Option<int>)

  /** A number field that is present and non-zero, i.e. truthy. */
  predicate Truthy(n: Option<int>)
  {
    n.Some? && n.value != 0
  }

  /** An item with a preview locator can be played; one without cannot. */
  predicate HasPreview(x: Item)
  {
    x.previewUrl != ""
  }

  /** `s.findIndex(item => item.trackId === id)`: the first position whose
      trackId is strictly equal to `id`, or -1. Two absent ids are strictly
      equal, as `undefined === undefined` is. */
  function IndexOfId(s: seq<Item>, id: Option<int>): (r: int)
    ensures -1 <= r < |s|
    ensures r >= 0 ==> s[r].trackId == id
    ensures r >= 0 ==> forall j :: 0 <= j < r ==> s[j].trackId != id
    ensures r == -1 <==> forall j :: 0 <= j < |s| ==> s[j].trackId != id
  {
    if s == [] then -1
    else if s[0].trackId == id then 0
    else
      var k := IndexOfId(s[1..], id);
      if k == -1 then -1 else k + 1
  }

  /** No two items share a trackId. */
  predicate DistinctIds(s: seq<Item>)
  {
    forall i, j :: 0 <= i < j < |s| ==> s[i].trackId != s[j].trackId
  }

  /** With distinct ids, looking an item's id up finds that very item. */
  lemma IndexOfIdAt(s: seq<Item>, i: int)
    requires DistinctIds(s)
    requires 0 <= i < |s|
    ensures IndexOfId(s, s[i].trackId) == i
  {
    var r := IndexOfId(s, s[i].trackId);
    assert r >= 0;
    assert !(r < i) && !(i < r);
  }

  /** The characters `String.prototype.trim` removes: the ECMAScript
      WhiteSpace and LineTerminator code points. */
  predicate IsTrimmed(c: char)
  {
    c == ' ' || c == '\t' || c == '\n' || c == '\r' || c == '\U{0B}' || c == '\U{0C}'
    || c == '\U{A0}' || c == '\U{1680}' || ('\U{2000}' <= c <= '\U{200A}')
    || c == '\U{2028}' || c == '\U{2029}' || c == '\U{202F}' || c == '\U{205F}'
    || c == '\U{3000}' || c == '\U{FEFF}'
  }

  /** `!query.trim()`: trimming leaves nothing, i.e. every character of the
      query is one that `trim` removes. */
  predicate IsBlank(q: string)
    ensures IsBlank(q) <==> forall i :: 0 <= i < |q| ==> IsTrimmed(q[i])
  {
    q == [] || (IsTrimmed(q[0]) && IsBlank(q[1..]))
  }
}
