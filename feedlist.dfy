/**
 * The list logic of the feed reader's Vue component (static/feeder.js:1-3,
 * 161-181, 196, 247-259): the blank test, the blocklist filter, the date
 * order, pagination, the description toggle and the split of the feed list.
 */
module FeedList {
  import opened Wrappers
  import opened Text

  /**
   * One displayed item. The title and content come from the parsed feed and
   * may be missing; `pubDate` is the item's date as a number of milliseconds,
   * which is what `new Date(...)` yields when the date parses.
   */
  datatype FeedItem = FeedItem(
    title: Option<string>,
    link: Option<string>,
    pubDate: int,
    content: Option<string>,
    feedTitle: Option<string>,
    showDescription: bool)

  /** `isBlank(str)` (lines 1-3) for a string: empty, or nothing but white space. */
  function IsBlank(s: string): (r: bool)
    ensures r <==> forall i :: 0 <= i < |s| ==> IsSpace(s[i])
    ensures r <==> Trim(s) == []
  {
    AllSpace(s)
  }

  /** A template-literal hole: a missing value prints as "undefined". */
  function Show(v: Option<string>): string
  {
    match v
    case None => "undefined"
    case Some(s) => s
  }

  /** Lines 171 and 250: `${feed.title} ${feed.content}`.toLowerCase(). */
  function SearchText(item: FeedItem): string
  {
    Lower(Show(item.title) + " " + Show(item.content))
  }

  /** The search text is the lower-cased title, a space and the lower-cased content. */
  lemma SearchTextParts(item: FeedItem)
    ensures SearchText(item) == Lower(Show(item.title)) + " " + Lower(Show(item.content))
  {
    var t, c := Show(item.title), Show(item.content);
    assert t + " " + c == t + (" " + c);
    LowerAppend(t, " " + c);
    LowerAppend(" ", c);
    assert Lower(" ") == " ";
  }

  /** The terms of a non-blank blocklist: its `,`-separated pieces, trimmed and lower-cased (lines 169 and 248). */
  function Terms(blocklist: string): (r: seq<string>)
    ensures |r| == |Split(blocklist, ',')| == Count(blocklist, ',') + 1
    ensures forall i :: 0 <= i < |r| ==> r[i] == Lower(Trim(Split(blocklist, ',')[i]))
  {
    SplitCount(blocklist, ',');
    var pieces := Split(blocklist, ',');
    seq(|pieces|, i requires 0 <= i < |pieces| => Lower(Trim(pieces[i])))
  }

  /** The terms `updateFilteredFeeds` filters by: none for a blank blocklist (line 248). */
  function ActiveTerms(blocklist: string): (r: seq<string>)
    ensures IsBlank(blocklist) ==> r == []
    ensures !IsBlank(blocklist) ==> r == Terms(blocklist)
  {
    if IsBlank(blocklist) then [] else Terms(blocklist)
  }

  /** Lines 170-173: an item is kept when no term occurs in its search text. */
  predicate Kept(terms: seq<string>, item: FeedItem)
    ensures Kept(terms, item) ==> forall i :: 0 <= i < |terms| ==> terms[i] != ""
    ensures terms == [] ==> Kept(terms, item)
  {
    forall i :: 0 <= i < |terms| ==> !Includes(SearchText(item), terms[i])
  }

  /** `items.filter(...)`: the kept items, in their order. */
  function Filter(items: seq<FeedItem>, terms: seq<string>): (r: seq<FeedItem>)
    ensures |r| <= |items|
    ensures forall i :: 0 <= i < |r| ==> Kept(terms, r[i])
  {
    if items == [] then []
    else
      var rest := Filter(items[1..], terms);
      if Kept(terms, items[0]) then [items[0]] + rest else rest
  }

  /** Exactly the kept items survive. */
  lemma {:induction false} FilterMembers(items: seq<FeedItem>, terms: seq<string>, x: FeedItem)
    ensures x in Filter(items, terms) <==> x in items && Kept(terms, x)
    decreases |items|
  {
    if items != [] {
      FilterMembers(items[1..], terms, x);
      assert x in items <==> x == items[0] || x in items[1..];
    }
  }

  /** Filtering a concatenation filters each part: the order of the kept items is the order of the input. */
  lemma {:induction false} FilterAppend(a: seq<FeedItem>, b: seq<FeedItem>, terms: seq<string>)
    ensures Filter(a + b, terms) == Filter(a, terms) + Filter(b, terms)
    decreases |a|
  {
    if a != [] {
      assert (a + b)[1..] == a[1..] + b;
      FilterAppend(a[1..], b, terms);
    } else {
      assert a + b == b;
    }
  }

  /** Filtering twice by the same terms changes nothing more. */
  lemma {:induction false} FilterIdempotent(items: seq<FeedItem>, terms: seq<string>)
    ensures Filter(Filter(items, terms), terms) == Filter(items, terms)
    decreases |items|
  {
    if items != [] {
      FilterIdempotent(items[1..], terms);
      var rest := Filter(items[1..], terms);
      if Kept(terms, items[0]) {
        assert ([items[0]] + rest)[1..] == rest;
      }
    }
  }

  /** No terms: every item is kept. */
  lemma {:induction false} FilterNoTerms(items: seq<FeedItem>)
    ensures Filter(items, []) == items
    decreases |items|
  {
    if items != [] {
      FilterNoTerms(items[1..]);
    }
  }

  /** An empty term occurs in every text, so it removes every item. */
  lemma {:induction false} FilterEmptyTerm(items: seq<FeedItem>, terms: seq<string>)
    requires "" in terms
    ensures Filter(items, terms) == []
    decreases |items|
  {
    if items != [] {
      var i :| 0 <= i < |terms| && terms[i] == "";
      assert OccursAt(SearchText(items[0]), "", 0);
      FilterEmptyTerm(items[1..], terms);
    }
  }

  /** A blocklist with a trailing comma has an empty term. */
  lemma TrailingCommaTerms()
    ensures Terms("a,") == ["a", ""]
  {
    TrailingCommaSplit();
    assert Trim("a") == "a";
    assert Trim("") == "";
  }

  lemma TrailingCommaSplit()
    ensures Split("a,", ',') == ["a", ""]
  {
    assert Split("", ',') == [""];
    assert ","[1..] == "";
    var rest := Split(",", ',');
    assert rest == ["", ""];
    assert "a,"[1..] == ",";
    assert "a,"[0] != ',';
    assert Split("a,", ',') == [['a'] + rest[0]] + rest[1..];
    assert ['a'] + rest[0] == "a";
    assert rest[1..] == [""];
  }

  /**
   * Terms and text are both lower-cased, so matching ignores ASCII case: two
   * items whose title and content agree up to case are kept or dropped together.
   */
  lemma KeptIgnoresCase(terms: seq<string>, a: FeedItem, b: FeedItem)
    requires Lower(Show(a.title)) == Lower(Show(b.title))
    requires Lower(Show(a.content)) == Lower(Show(b.content))
    ensures Kept(terms, a) <==> Kept(terms, b)
  {
    LowerAppend(Show(a.title) + " ", Show(a.content));
    LowerAppend(Show(a.title), " ");
    LowerAppend(Show(b.title) + " ", Show(b.content));
    LowerAppend(Show(b.title), " ");
    assert SearchText(a) == SearchText(b);
  }

  // ---------------------------------------------------------------------------
  // Date order (line 177)

  /** Newest first by `pubDate`. */
  predicate NewestFirst(items: seq<FeedItem>)
    ensures |items| <= 1 ==> NewestFirst(items)
    ensures NewestFirst(items) ==> forall i :: 0 <= i < |items| - 1 ==> items[i].pubDate >= items[i + 1].pubDate
  {
    forall i, j :: 0 <= i < j < |items| ==> items[i].pubDate >= items[j].pubDate
  }

  /** A list is newest first exactly when every item is at least as new as the one after it. */
  lemma {:induction false} NewestFirstAdjacent(items: seq<FeedItem>)
    requires forall i :: 0 <= i < |items| - 1 ==> items[i].pubDate >= items[i + 1].pubDate
    ensures NewestFirst(items)
    decreases |items|
  {
    if |items| > 1 {
      var rest := items[1..];
      assert forall i :: 0 <= i < |rest| - 1 ==> rest[i].pubDate >= rest[i + 1].pubDate by {
        forall i | 0 <= i < |rest| - 1 ensures rest[i].pubDate >= rest[i + 1].pubDate {
          assert rest[i] == items[i + 1] && rest[i + 1] == items[i + 2];
        }
      }
      NewestFirstAdjacent(rest);
      forall i, j | 0 <= i < j < |items| ensures items[i].pubDate >= items[j].pubDate {
        assert items[j] == rest[j - 1];
        if i > 0 {
          assert items[i] == rest[i - 1];
        } else if j > 1 {
          assert items[1] == rest[0];
        }
      }
    }
  }

  /**
   * Places `x` into a newest-first list after every strictly newer item and
   * before the rest, so that `x` stays ahead of later items with its date.
   */
  function Insert(x: FeedItem, sorted: seq<FeedItem>): (r: seq<FeedItem>)
    requires NewestFirst(sorted)
    ensures |r| == |sorted| + 1
    ensures r[0] == x || (sorted != [] && r[0] == sorted[0])
    ensures NewestFirst(r)
    ensures multiset(r) == multiset(sorted) + multiset{x}
    decreases |sorted|
  {
    if sorted == [] then [x]
    else if sorted[0].pubDate > x.pubDate then
      var rest := Insert(x, sorted[1..]);
      assert sorted == [sorted[0]] + sorted[1..];
      assert sorted[0].pubDate >= rest[0].pubDate;
      [sorted[0]] + rest
    else
      [x] + sorted
  }

  /**
   * `this.feeds.sort((a, b) => new Date(b.pubDate) - new Date(a.pubDate))`:
   * a stable sort, newest first.
   */
  function SortByDate(items: seq<FeedItem>): (r: seq<FeedItem>)
    ensures NewestFirst(r)
    ensures multiset(r) == multiset(items)
    decreases |items|
  {
    if items == [] then []
    else
      assert items == [items[0]] + items[1..];
      Insert(items[0], SortByDate(items[1..]))
  }

  /** The items of `items` dated `d`, in their order. */
  function Dated(items: seq<FeedItem>, d: int): (r: seq<FeedItem>)
    ensures forall i :: 0 <= i < |r| ==> r[i].pubDate == d
    decreases |items|
  {
    if items == [] then []
    else (if items[0].pubDate == d then [items[0]] else []) + Dated(items[1..], d)
  }

  lemma DatedCons(x: FeedItem, rest: seq<FeedItem>, d: int)
    ensures Dated([x] + rest, d) == (if x.pubDate == d then [x] else []) + Dated(rest, d)
  {
    assert ([x] + rest)[1..] == rest;
  }

  lemma NewestFirstTail(items: seq<FeedItem>)
    requires items != [] && NewestFirst(items)
    ensures NewestFirst(items[1..])
  {
    forall i, j | 0 <= i < j < |items| - 1 ensures items[1..][i].pubDate >= items[1..][j].pubDate {
      assert items[1..][i] == items[i + 1] && items[1..][j] == items[j + 1];
    }
  }

  /** Passing over a strictly newer item `y` does not change where `x` falls among the items of its date. */
  lemma PassNewer(x: FeedItem, y: FeedItem, ins: seq<FeedItem>, rest: seq<FeedItem>, d: int)
    requires y.pubDate > x.pubDate
    requires Dated(ins, d) == (if x.pubDate == d then [x] else []) + Dated(rest, d)
    ensures Dated([y] + ins, d) == (if x.pubDate == d then [x] else []) + Dated([y] + rest, d)
  {
    DatedCons(y, ins, d);
    DatedCons(y, rest, d);
  }

  /** Insertion puts `x` ahead of the items of its date already in the list, and moves nothing else among equal dates. */
  lemma {:induction false} InsertDated(x: FeedItem, sorted: seq<FeedItem>, d: int)
    requires NewestFirst(sorted)
    ensures Dated(Insert(x, sorted), d) == (if x.pubDate == d then [x] else []) + Dated(sorted, d)
    decreases |sorted|
  {
    if sorted == [] {
      DatedCons(x, [], d);
    } else if sorted[0].pubDate > x.pubDate {
      var y, rest := sorted[0], sorted[1..];
      assert sorted == [y] + rest;
      NewestFirstTail(sorted);
      InsertDated(x, rest, d);
      assert Insert(x, sorted) == [y] + Insert(x, rest);
      PassNewer(x, y, Insert(x, rest), rest, d);
    } else {
      assert Insert(x, sorted) == [x] + sorted;
      DatedCons(x, sorted, d);
    }
  }

  /**
   * The sort is stable, as `Array.prototype.sort` is: for every date, the
   * items of that date come out in the order they went in.
   */
  lemma {:induction false} SortStable(items: seq<FeedItem>, d: int)
    ensures Dated(SortByDate(items), d) == Dated(items, d)
    decreases |items|
  {
    if items != [] {
      SortStable(items[1..], d);
      InsertDated(items[0], SortByDate(items[1..]), d);
    }
  }

  /** A list already newest first is left as it is: sorting is idempotent, and equal dates keep their order. */
  lemma {:induction false} SortKeepsSorted(items: seq<FeedItem>)
    requires NewestFirst(items)
    ensures SortByDate(items) == items
    decreases |items|
  {
    if items != [] {
      SortKeepsSorted(items[1..]);
      if |items| > 1 {
        assert items[1..][0] == items[1];
      }
    }
  }

  lemma SortIdempotent(items: seq<FeedItem>)
    ensures SortByDate(SortByDate(items)) == SortByDate(items)
  {
    SortKeepsSorted(SortByDate(items));
  }

  /** The list `filteredFeeds` yields (lines 166-175): the sorted feeds, filtered unless the blocklist is blank. */
  function Filtered(feeds: seq<FeedItem>, blocklist: string): (r: seq<FeedItem>)
    ensures IsBlank(blocklist) ==> r == SortByDate(feeds)
    ensures !IsBlank(blocklist) ==> r == Filter(SortByDate(feeds), Terms(blocklist))
  {
    if IsBlank(blocklist) then SortByDate(feeds) else Filter(SortByDate(feeds), Terms(blocklist))
  }

  /** The two ways of filtering agree: `filteredFeeds` is the `updateFilteredFeeds` filter applied to the sorted list. */
  lemma FilteredIsActiveFilter(feeds: seq<FeedItem>, blocklist: string)
    ensures Filtered(feeds, blocklist) == Filter(SortByDate(feeds), ActiveTerms(blocklist))
  {
    FilterNoTerms(SortByDate(feeds));
  }

  // ---------------------------------------------------------------------------
  // Pagination (lines 162-165 and 179-181)

  /** An index argument of `Array.prototype.slice`: negative counts from the end; clamped to `[0, n]`. */
  function SliceIndex(k: int, n: nat): (r: nat)
    ensures r <= n
    ensures 0 <= k <= n ==> r == k
    ensures k > n ==> r == n
    ensures k < 0 ==> r == if n + k < 0 then 0 else n + k
  {
    if k < 0 then (if n + k < 0 then 0 else n + k) else if k > n then n else k
  }

  /** `s.slice(b, e)`. */
  function JsSlice<T>(s: seq<T>, b: int, e: int): (r: seq<T>)
    ensures 0 <= b <= e <= |s| ==> r == s[b..e]
    ensures |r| <= |s|
  {
    var lo := SliceIndex(b, |s|);
    var hi := SliceIndex(e, |s|);
    if lo < hi then s[lo..hi] else []
  }

  /** `paginatedFeeds` for a page number `page` and page size `size`. */
  function Page<T>(items: seq<T>, page: int, size: int): (r: seq<T>)
    ensures size >= 0 ==> |r| <= size
    ensures var start := (page - 1) * size;
      size >= 0 && 0 <= start && start + size <= |items| ==> r == items[start..start + size]
  {
    var start := (page - 1) * size;
    JsSlice(items, start, start + size)
  }

  /** `Math.ceil(n / size)`. */
  function TotalPages(n: nat, size: nat): (r: nat)
    requires size > 0
    ensures r * size >= n
    ensures n > 0 ==> (r - 1) * size < n
    ensures n == 0 ==> r == 0
  {
    (n + size - 1) / size
  }

  /** Pages 1 to `count` side by side. */
  function Pages<T>(items: seq<T>, count: nat, size: int): seq<T>
  {
    if count == 0 then [] else Pages(items, count - 1, size) + Page(items, count, size)
  }

  function Min(a: int, b: int): int
  {
    if a < b then a else b
  }

  /** Page `page` (from 1 on) runs from item `(page - 1) * size` to item `page * size`, clamped to the list. */
  lemma PageBounds<T>(items: seq<T>, page: nat, size: nat)
    requires page >= 1
    ensures 0 <= (page - 1) * size && (page - 1) * size + size == page * size
    ensures Page(items, page, size) == items[Min((page - 1) * size, |items|)..Min(page * size, |items|)]
  {
    assert (page - 1) * size + size == page * size;
  }

  /** Pages 1 to `count` are the first `count * size` items, or all of them. */
  lemma {:induction false} PagesPrefix<T>(items: seq<T>, count: nat, size: nat)
    ensures Pages(items, count, size) == items[..Min(count * size, |items|)]
  {
    if count > 0 {
      PagesPrefix(items, count - 1, size);
      PageBounds(items, count, size);
      PrefixConcat(items, Min((count - 1) * size, |items|), Min(count * size, |items|));
    }
  }

  lemma PrefixConcat<T>(items: seq<T>, lo: nat, hi: nat)
    requires lo <= hi <= |items|
    ensures items[..lo] + items[lo..hi] == items[..hi]
  {
  }

  /** Pages 1 to `totalPages` give back the whole list, in order. */
  lemma PagesCoverList<T>(items: seq<T>, size: nat)
    requires size > 0
    ensures Pages(items, TotalPages(|items|, size), size) == items
  {
    var count := TotalPages(|items|, size);
    PagesPrefix(items, count, size);
    assert Min(count * size, |items|) == |items|;
    assert items[..|items|] == items;
  }

  // ---------------------------------------------------------------------------
  // The description toggle (lines 254-259)

  /**
   * `showDescription(item)` where `item` is `feeds[index]`: the one item has
   * its flag flipped, every other item is copied unchanged.
   */
  function ToggleAt(feeds: seq<FeedItem>, index: int): (r: seq<FeedItem>)
    ensures |r| == |feeds|
    ensures forall i :: 0 <= i < |feeds| && i != index ==> r[i] == feeds[i]
    ensures 0 <= index < |feeds| ==>
      r[index] == feeds[index].(showDescription := !feeds[index].showDescription)
  {
    seq(|feeds|, i requires 0 <= i < |feeds| =>
      if i == index then feeds[i].(showDescription := !feeds[i].showDescription) else feeds[i])
  }

  /** Toggling the same item twice restores the list. */
  lemma ToggleTwice(feeds: seq<FeedItem>, index: int)
    ensures ToggleAt(ToggleAt(feeds, index), index) == feeds
  {
  }

  // ---------------------------------------------------------------------------
  // The feed list (line 196)

  /** `rssInput.split(',').map(url => url.trim())`. */
  function SplitUrls(input: string): (r: seq<string>)
    ensures |r| == |Split(input, ',')| == Count(input, ',') + 1
    ensures forall i :: 0 <= i < |r| ==> r[i] == Trim(Split(input, ',')[i])
  {
    SplitCount(input, ',');
    var pieces := Split(input, ',');
    seq(|pieces|, i requires 0 <= i < |pieces| => Trim(pieces[i]))
  }
}
