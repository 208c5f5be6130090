/**
 * The parts of the media-library client that hold logic of their own: the
 * episode ordering of an items listing, the two "string or int" scalar
 * normalisers used when reading item records, and the guard and request
 * text of an item search.
 */
module EmbyClient {
  import opened Wrappers
  import opened Text

  datatype UserData = UserData(played: bool)

  /**
   * One item record. `itemType` is optional because the label code falls
   * back to "Unknown" when it is missing.
   */
  datatype EmbyItemData = EmbyItemData(
    id: string,
    name: string,
    itemType: Option<string>,
    path: Option<string>,
    episodeNum: Option<string>,
    seasonNum: Option<string>,
    userData: Option<UserData>)

  datatype EmbyItemsResult = EmbyItemsResult(items: seq<EmbyItemData>)

  /** The sort key: the episode number read as a u32, with 0 when it is missing or unreadable. */
  function EpisodeKey(item: EmbyItemData): (k: nat)
    ensures k <= U32_MAX
    ensures item.episodeNum.None? ==> k == 0
    ensures item.episodeNum.Some? && ParseU32(item.episodeNum.value).None? ==> k == 0
  {
    ParseU32(item.episodeNum.GetOr("0")).GetOr(0)
  }

  /** An episode number printed in decimal sorts under that number. */
  lemma EpisodeKeyOfPrinted(item: EmbyItemData, n: nat)
    requires n <= U32_MAX && item.episodeNum == Some(NatToString(n))
    ensures EpisodeKey(item) == n
  {
    ParseU32OfNatToString(n);
  }

  /*
   * The sort is stated for any key function `key`, so that the proofs about
   * ordering do not depend on how the episode key is read from the text.
   */

  /** Ordered non-decreasingly by `key`. */
  predicate SortedBy(s: seq<EmbyItemData>, key: EmbyItemData -> nat) {
    forall p, q :: 0 <= p < q < |s| ==> key(s[p]) <= key(s[q])
  }

  predicate SortedByEpisode(s: seq<EmbyItemData>) {
    SortedBy(s, EpisodeKey)
  }

  /** The item itself when its key is `k`, nothing otherwise. */
  function Picked(item: EmbyItemData, key: EmbyItemData -> nat, k: nat): seq<EmbyItemData> {
    if key(item) == k then [item] else []
  }

  /** The items of `s` whose key is `k`, in their order in `s`. */
  function WithKey(s: seq<EmbyItemData>, key: EmbyItemData -> nat, k: nat): (r: seq<EmbyItemData>)
    ensures |r| <= |s|
  {
    if s == [] then [] else Picked(s[0], key, k) + WithKey(s[1..], key, k)
  }

  /** Same items with each key in the same relative order: what a stable sort keeps. */
  ghost predicate SameRuns(s: seq<EmbyItemData>, t: seq<EmbyItemData>, key: EmbyItemData -> nat) {
    forall k: nat :: WithKey(s, key, k) == WithKey(t, key, k)
  }

  ghost predicate SameEpisodeRuns(s: seq<EmbyItemData>, t: seq<EmbyItemData>) {
    SameRuns(s, t, EpisodeKey)
  }

  lemma {:induction false} WithKeyAppend(a: seq<EmbyItemData>, b: seq<EmbyItemData>, key: EmbyItemData -> nat, k: nat)
    ensures WithKey(a + b, key, k) == WithKey(a, key, k) + WithKey(b, key, k)
    decreases |a|
  {
    if a == [] {
      assert a + b == b;
    } else {
      var head := Picked(a[0], key, k);
      var x, y := WithKey(a[1..], key, k), WithKey(b, key, k);
      calc {
        WithKey(a + b, key, k);
      == { assert (a + b)[0] == a[0]; assert (a + b)[1..] == a[1..] + b; }
        head + WithKey(a[1..] + b, key, k);
      == { WithKeyAppend(a[1..], b, key, k); }
        head + (x + y);
      == { assert head + (x + y) == (head + x) + y; }
        WithKey(a, key, k) + y;
      }
    }
  }

  function SwapAdjacent(s: seq<EmbyItemData>, j: nat): (r: seq<EmbyItemData>)
    requires 0 < j < |s|
    ensures |r| == |s|
    ensures r[j - 1] == s[j] && r[j] == s[j - 1]
    ensures forall q :: 0 <= q < |s| && q != j - 1 && q != j ==> r[q] == s[q]
  {
    s[..j - 1] + [s[j], s[j - 1]] + s[j + 1..]
  }

  /** `s` with the item at `i` taken out and put back at position `j`, before `s[j]`. */
  function Moved(s: seq<EmbyItemData>, i: nat, j: nat): (r: seq<EmbyItemData>)
    requires j <= i < |s|
    ensures |r| == |s|
  {
    s[..j] + [s[i]] + s[j..i] + s[i + 1..]
  }

  /** Where each item of `Moved(s, i, j)` comes from. */
  lemma MovedAt(s: seq<EmbyItemData>, i: nat, j: nat)
    requires j <= i < |s|
    ensures forall p :: 0 <= p < j ==> Moved(s, i, j)[p] == s[p]
    ensures Moved(s, i, j)[j] == s[i]
    ensures forall p :: j < p <= i ==> Moved(s, i, j)[p] == s[p - 1]
    ensures forall p :: i < p < |s| ==> Moved(s, i, j)[p] == s[p]
  {
  }

  lemma MovedNowhere(s: seq<EmbyItemData>, i: nat)
    requires i < |s|
    ensures Moved(s, i, i) == s
  {
    assert s == s[..i] + [s[i]] + s[i + 1..];
  }

  /** Swapping the moving item with its left neighbour moves it one place further. */
  lemma MovedStep(s: seq<EmbyItemData>, i: nat, j: nat)
    requires 0 < j <= i < |s|
    ensures Moved(s, i, j)[j - 1] == s[j - 1] && Moved(s, i, j)[j] == s[i]
    ensures SwapAdjacent(Moved(s, i, j), j) == Moved(s, i, j - 1)
  {
    MovedAt(s, i, j);
    MovedAt(s, i, j - 1);
  }

  /**
   * Putting `s[i]` after a sorted prefix's last key not above its own, and
   * before a run of greater keys, sorts the first i + 1 items.
   */
  lemma MovedSorted(s: seq<EmbyItemData>, key: EmbyItemData -> nat, i: nat, j: nat)
    requires j <= i < |s| && SortedBy(s[..i], key)
    requires j == 0 || key(s[j - 1]) <= key(s[i])
    requires forall q :: j <= q < i ==> key(s[q]) > key(s[i])
    ensures SortedBy(Moved(s, i, j)[..i + 1], key)
  {
    var m := Moved(s, i, j)[..i + 1];
    MovedAt(s, i, j);
    assert forall p :: 0 <= p < i ==> s[..i][p] == s[p];
    forall p, q | 0 <= p < q < |m| ensures key(m[p]) <= key(m[q]) {
      if q < j {
        assert key(s[p]) <= key(s[q]);
      } else if q == j {
        if p < j - 1 {
          assert key(s[p]) <= key(s[j - 1]);
        }
      } else if p < j {
        assert key(s[p]) <= key(s[q - 1]);
      } else if p == j {
        assert key(s[q - 1]) > key(s[i]);
      } else {
        assert key(s[p - 1]) <= key(s[q - 1]);
      }
    }
  }

  lemma MovedKeepsItems(s: seq<EmbyItemData>, i: nat, j: nat)
    requires j <= i < |s|
    ensures multiset(Moved(s, i, j)) == multiset(s)
    ensures Moved(s, i, j)[i + 1..] == s[i + 1..]
  {
    assert s == s[..j] + s[j..i] + [s[i]] + s[i + 1..];
    MovedAt(s, i, j);
  }

  lemma {:induction false} WithKeyNone(t: seq<EmbyItemData>, key: EmbyItemData -> nat, k: nat)
    requires forall q :: 0 <= q < |t| ==> key(t[q]) != k
    ensures WithKey(t, key, k) == []
    decreases |t|
  {
    if t != [] {
      WithKeyNone(t[1..], key, k);
    }
  }

  lemma WithKeyOfFour(a: seq<EmbyItemData>, b: seq<EmbyItemData>, c: seq<EmbyItemData>, d: seq<EmbyItemData>, key: EmbyItemData -> nat, k: nat)
    ensures WithKey(a + b + c + d, key, k) == WithKey(a, key, k) + WithKey(b, key, k) + WithKey(c, key, k) + WithKey(d, key, k)
  {
    WithKeyAppend(a + b + c, d, key, k);
    WithKeyAppend(a + b, c, key, k);
    WithKeyAppend(a, b, key, k);
  }

  lemma SplitAround(s: seq<EmbyItemData>, i: nat, j: nat)
    requires j <= i < |s|
    ensures s == s[..j] + s[j..i] + [s[i]] + s[i + 1..]
  {
    assert s[..i] == s[..j] + s[j..i];
    assert s == s[..i] + [s[i]] + s[i + 1..];
  }

  lemma SwapPieces(f: seq<EmbyItemData>, m: seq<EmbyItemData>, p: seq<EmbyItemData>, b: seq<EmbyItemData>)
    requires m == [] || p == []
    ensures f + p + m + b == f + m + p + b
  {
    if m == [] {
      assert f + p + m + b == f + p + b;
      assert f + m + p + b == f + p + b;
    } else {
      assert f + p + m + b == f + m + b;
      assert f + m + p + b == f + m + b;
    }
  }

  lemma MovedKeepsRunsAt(s: seq<EmbyItemData>, key: EmbyItemData -> nat, i: nat, j: nat, k: nat)
    requires j <= i < |s|
    requires forall q :: j <= q < i ==> key(s[q]) > key(s[i])
    ensures WithKey(Moved(s, i, j), key, k) == WithKey(s, key, k)
  {
    var front, middle, x, back := s[..j], s[j..i], [s[i]], s[i + 1..];
    WithKeyOfFour(front, x, middle, back, key, k);
    SplitAround(s, i, j);
    WithKeyOfFour(front, middle, x, back, key, k);
    if key(s[i]) == k {
      forall q | 0 <= q < |middle| ensures key(middle[q]) != k {
        assert middle[q] == s[j + q];
      }
      WithKeyNone(middle, key, k);
    } else {
      assert x[1..] == [];
    }
    SwapPieces(WithKey(front, key, k), WithKey(middle, key, k), WithKey(x, key, k), WithKey(back, key, k));
  }

  /** Moving an item only past greater keys keeps the order within every key. */
  lemma MovedKeepsRuns(s: seq<EmbyItemData>, key: EmbyItemData -> nat, i: nat, j: nat)
    requires j <= i < |s|
    requires forall q :: j <= q < i ==> key(s[q]) > key(s[i])
    ensures SameRuns(Moved(s, i, j), s, key)
  {
    forall k: nat ensures WithKey(Moved(s, i, j), key, k) == WithKey(s, key, k) {
      MovedKeepsRunsAt(s, key, i, j, k);
    }
  }

  lemma SameRunsTrans(s: seq<EmbyItemData>, t: seq<EmbyItemData>, u: seq<EmbyItemData>, key: EmbyItemData -> nat)
    requires SameRuns(s, t, key) && SameRuns(t, u, key)
    ensures SameRuns(s, u, key)
  {
    forall k: nat ensures WithKey(s, key, k) == WithKey(u, key, k) {
      assert WithKey(s, key, k) == WithKey(t, key, k);
    }
  }

  /**
   * What one insertion pass keeps: the first i + 1 items end up sorted, and
   * the items and their order within each key are those of `original`.
   */
  lemma InsertionPassKeeps(s: seq<EmbyItemData>, key: EmbyItemData -> nat, i: nat, pos: nat, original: seq<EmbyItemData>)
    requires pos <= i < |s| && SortedBy(s[..i], key)
    requires multiset(s) == multiset(original) && SameRuns(s, original, key)
    requires pos == 0 || key(s[pos - 1]) <= key(s[i])
    requires forall q :: pos <= q < i ==> key(s[q]) > key(s[i])
    ensures SortedBy(Moved(s, i, pos)[..i + 1], key)
    ensures multiset(Moved(s, i, pos)) == multiset(original)
    ensures SameRuns(Moved(s, i, pos), original, key)
  {
    MovedSorted(s, key, i, pos);
    MovedKeepsItems(s, i, pos);
    MovedKeepsRuns(s, key, i, pos);
    SameRunsTrans(Moved(s, i, pos), s, original, key);
  }

  method SwapWithPrevious(a: array<EmbyItemData>, j: nat)
    requires 0 < j < a.Length
    modifies a
    ensures a[..] == SwapAdjacent(old(a[..]), j)
  {
    a[j - 1], a[j] := a[j], a[j - 1];
  }

  /**
   * One pass of insertion sort by `key`: swaps `a[i]` leftwards while its
   * left neighbour has a greater key, which moves it to position `pos` past
   * exactly the greater keys before it.
   */
  method InsertByKey(a: array<EmbyItemData>, i: nat, key: EmbyItemData -> nat) returns (pos: nat)
    requires i < a.Length
    modifies a
    ensures pos <= i
    ensures a[..] == Moved(old(a[..]), i, pos)
    ensures pos == 0 || key(old(a[..])[pos - 1]) <= key(old(a[..])[i])
    ensures forall q :: pos <= q < i ==> key(old(a[..])[q]) > key(old(a[..])[i])
  {
    ghost var s := a[..];
    MovedNowhere(s, i);
    pos := i;
    while pos > 0 && key(a[pos - 1]) > key(a[pos])
      invariant pos <= i
      invariant a[..] == Moved(s, i, pos)
      invariant forall q :: pos <= q < i ==> key(s[q]) > key(s[i])
    {
      MovedStep(s, i, pos);
      SwapWithPrevious(a, pos);
      pos := pos - 1;
    }
    if pos > 0 {
      MovedStep(s, i, pos);
    }
  }

  /**
   * `get_sorted_items`: a copy of the items sorted in place, stably, by
   * episode key. The listing itself is a value and is not changed.
   */
  method GetSortedItems(result: EmbyItemsResult) returns (sorted: seq<EmbyItemData>)
    ensures SortedByEpisode(sorted)
    ensures multiset(sorted) == multiset(result.items)
    ensures SameEpisodeRuns(sorted, result.items)
  {
    var a := new EmbyItemData[|result.items|](k requires 0 <= k < |result.items| => result.items[k]);
    assert a[..] == result.items;
    var i := 0;
    while i < a.Length
      invariant 0 <= i <= a.Length
      invariant SortedBy(a[..i], EpisodeKey)
      invariant multiset(a[..]) == multiset(result.items)
      invariant SameRuns(a[..], result.items, EpisodeKey)
    {
      ghost var before := a[..];
      var pos := InsertByKey(a, i, EpisodeKey);
      InsertionPassKeeps(before, EpisodeKey, i, pos, result.items);
      assert a[..i + 1] == Moved(before, i, pos)[..i + 1];
      i := i + 1;
    }
    assert a[..a.Length] == a[..];
    sorted := a[..];
  }

  /**
   * A scalar as the deserializer hands it to a visitor: a signed or unsigned
   * 64-bit integer, a string, an explicit none, a unit (JSON null), or any
   * other kind of value.
   */
  datatype Scalar = I64(i: int) | U64(n: nat) | Str(s: string) | NoneValue | Unit | OtherValue

  predicate InRange(v: Scalar) {
    (v.I64? ==> IsI64(v.i)) && (v.U64? ==> v.n < 0x1_0000_0000_0000_0000)
  }

  const EXPECTING: string := "invalid type: expected a string or an int"

  /** `deserialize_string_or_int`: an integer becomes its decimal text, a string is kept. */
  function StringOrInt(v: Scalar): (r: Result<string, string>)
    requires InRange(v)
    ensures r.Ok? <==> v.I64? || v.U64? || v.Str?
    ensures v.Str? ==> r == Ok(v.s)
    ensures r.Err? ==> r.error == EXPECTING
  {
    match v
    case I64(i) => Ok(IntToString(i))
    case U64(n) => Ok(NatToString(n))
    case Str(s) => Ok(s)
    case _ => Err(EXPECTING)
  }

  /** The text an integer id is normalised to reads back as the same integer. */
  lemma IntIdReadsBack(v: Scalar)
    requires InRange(v) && (v.I64? || v.U64?)
    ensures v.I64? ==> ParseI64(StringOrInt(v).value) == Some(v.i)
    ensures v.U64? ==> ParseNat(StringOrInt(v).value) == Some(v.n)
  {
    if v.I64? {
      ParseI64OfIntToString(v.i);
    } else {
      ParseNatOfNatToString(v.n);
    }
  }

  /**
   * `deserialize_option_string_or_int`: an integer or a string becomes
   * Some of the text `StringOrInt` gives; none and unit become None.
   */
  function OptionStringOrInt(v: Scalar): (r: Result<Option<string>, string>)
    requires InRange(v)
    ensures r == Ok(None) <==> v.NoneValue? || v.Unit?
    ensures StringOrInt(v).Ok? ==> r == Ok(Some(StringOrInt(v).value))
    ensures r.Err? <==> v.OtherValue?
  {
    match v
    case I64(i) => Ok(Some(IntToString(i)))
    case U64(n) => Ok(Some(NatToString(n)))
    case Str(s) => Ok(Some(s))
    case NoneValue => Ok(None)
    case Unit => Ok(None)
    case OtherValue => Err(EXPECTING)
  }

  datatype SearchItemType = Series | Movie

  /** The variant name, as the derived Display prints it. */
  function TypeName(t: SearchItemType): string {
    match t
    case Series => "Series"
    case Movie => "Movie"
  }

  function TypeNames(types: seq<SearchItemType>): (names: seq<string>)
    ensures |names| == |types|
    ensures forall k :: 0 <= k < |types| ==> names[k] == TypeName(types[k])
  {
    if types == [] then [] else [TypeName(types[0])] + TypeNames(types[1..])
  }

  /** The requested types, comma separated. */
  function TypeList(types: seq<SearchItemType>): string {
    if types == [] then "" else Join(TypeNames(types), ',')
  }

  const SEARCH_PREFIX: string := "Items?Recursive=true&IncludeItemTypes="
  const SEARCH_TERM: string := "&SortBy=SortName&SearchTerm="

  /**
   * The guard and request path of `search_items`: an empty name is refused
   * before any request is made.
   */
  function SearchItemsRequest(itemName: string, itemTypes: seq<SearchItemType>): (r: Result<string, string>)
    ensures r.Err? <==> itemName == ""
    ensures r.Err? ==> r.error == "no item types for search passed!"
    ensures r.Ok? ==> SEARCH_PREFIX <= r.value && EndsWith(r.value, SEARCH_TERM + itemName)
  {
    if |itemName| == 0 then Err("no item types for search passed!")
    else Ok(SEARCH_PREFIX + TypeList(itemTypes) + SEARCH_TERM + itemName)
  }

  /** The type list of a request names exactly the requested types, in order. */
  lemma TypeListNamesTypes(types: seq<SearchItemType>)
    requires types != []
    ensures Split(TypeList(types), ',') == TypeNames(types)
  {
    var names := TypeNames(types);
    forall k | 0 <= k < |names| ensures ',' !in names[k] {
      assert names[k] == "Series" || names[k] == "Movie";
    }
    SplitOfJoin(names, ',');
  }
}
