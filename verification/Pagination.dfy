/** `getList` and `getNestedListWithTotal`: bounded page loops and what their success proves. */
module Pagination {
  import opened Wrappers

  const MAX_PAGES: nat := 10
  const PAGE_SIZE: nat := 100

  // ----- Lists that end with a short page

  /** The outcome of the loop from a page on: everything up to the first short page, or failure. */
  ghost function Listed<T>(fetch: nat -> Option<seq<T>>, page: nat): Option<seq<T>>
    decreases MAX_PAGES + 1 - page
  {
    if page > MAX_PAGES || fetch(page).None? then None
    else if |fetch(page).value| < PAGE_SIZE then fetch(page)
    else
      var rest := Listed(fetch, page + 1);
      if rest.None? then None else Some(fetch(page).value + rest.value)
  }

  function Prepend<T>(front: seq<T>, rest: Option<seq<T>>): Option<seq<T>> {
    if rest.None? then None else Some(front + rest.value)
  }

  /** `getList`. */
  method GetList<T>(fetch: nat -> Option<seq<T>>) returns (list: Option<seq<T>>)
    ensures list == Listed(fetch, 1)
  {
    var result: seq<T> := [];
    var page := 1;
    PrependNothing(Listed(fetch, 1));
    while page <= MAX_PAGES
      invariant 1 <= page <= MAX_PAGES + 1
      invariant Listed(fetch, 1) == Prepend(result, Listed(fetch, page))
    {
      var values := fetch(page);
      if values.None? {
        return None;
      }
      Regroup(result, values.value, Listed(fetch, page + 1));
      result := result + values.value;
      if |values.value| < PAGE_SIZE {
        return Some(result);
      }
      page := page + 1;
    }
    return None;
  }

  lemma PrependNothing<T>(rest: Option<seq<T>>)
    ensures Prepend([], rest) == rest
  {
    if rest.Some? {
      assert [] + rest.value == rest.value;
    }
  }

  lemma Regroup<T>(xs: seq<T>, ys: seq<T>, rest: Option<seq<T>>)
    ensures Prepend(xs, Prepend(ys, rest)) == Prepend(xs + ys, rest)
  {
    if rest.Some? {
      assert (xs + ys) + rest.value == xs + (ys + rest.value);
    }
  }

  /** The pages of one list. */
  function Slice<T>(list: seq<T>, page: nat): seq<T>
    requires page > 0
  {
    var start, end := PAGE_SIZE * (page - 1), PAGE_SIZE * page;
    if |list| <= start then [] else if |list| <= end then list[start..] else list[start..end]
  }

  lemma SliceParts<T>(list: seq<T>, page: nat)
    requires page > 0 && PAGE_SIZE * (page - 1) <= |list|
    ensures var start := PAGE_SIZE * (page - 1);
      && list[..start] + list[start..] == list
      && (|list| <= start + PAGE_SIZE ==> Slice(list, page) == list[start..])
      && (|list| >= start + PAGE_SIZE ==>
            Slice(list, page) == list[start..start + PAGE_SIZE] &&
            list[start..] == Slice(list, page) + list[start + PAGE_SIZE..] &&
            list[..start] + Slice(list, page) == list[..start + PAGE_SIZE])
  {
    var start := PAGE_SIZE * (page - 1);
    if |list| >= start + PAGE_SIZE {
      assert Slice(list, page) == list[start..start + PAGE_SIZE];
    }
  }

  /** A server that answers every page of one list. */
  function Slicer<T>(list: seq<T>): nat -> Option<seq<T>> {
    (page: nat) => if page == 0 then None else Some(Slice(list, page))
  }

  lemma {:induction false} ListedSlices<T>(list: seq<T>, page: nat)
    requires 1 <= page && PAGE_SIZE * (page - 1) <= |list|
    ensures Listed(Slicer(list), page) ==
      if |list| < PAGE_SIZE * MAX_PAGES then Some(list[PAGE_SIZE * (page - 1)..]) else None
    decreases MAX_PAGES + 1 - page
  {
    hide Slice;
    SliceParts(list, page);
    if page <= MAX_PAGES && |list| >= PAGE_SIZE * page {
      ListedSlices(list, page + 1);
    }
  }

  /** Against a server that slices a list, the list is returned exactly when it has at most 999 items. */
  lemma ListedExactly<T>(list: seq<T>)
    ensures Listed(Slicer(list), 1) == if |list| <= 999 then Some(list) else None
  {
    ListedSlices(list, 1);
    assert list[0..] == list;
  }

  /** The pages from first to last, put together. */
  ghost function Pages<T>(fetch: nat -> Option<seq<T>>, first: nat, last: nat): seq<T>
    requires forall page :: first <= page <= last ==> fetch(page).Some?
    decreases last + 1 - first
  {
    if first > last then [] else fetch(first).value + Pages(fetch, first + 1, last)
  }

  /** Against any server, success is the concatenation of pages read, of which exactly the last is short. */
  lemma {:induction false} ListedIsPages<T>(fetch: nat -> Option<seq<T>>, page: nat) returns (last: nat)
    requires Listed(fetch, page).Some?
    ensures page <= last <= 10
    ensures forall k :: page <= k <= last ==> fetch(k).Some? && (|fetch(k).value| < 100 <==> k == last)
    ensures Listed(fetch, page).value == Pages(fetch, page, last)
    decreases MAX_PAGES + 1 - page
  {
    if |fetch(page).value| < PAGE_SIZE {
      last := page;
      assert fetch(page).value + [] == fetch(page).value;
    } else {
      last := ListedIsPages(fetch, page + 1);
    }
  }

  /** Against any server, at most ten pages of which exactly the last is short are a success. */
  lemma {:induction false} PagesAreListed<T>(fetch: nat -> Option<seq<T>>, page: nat, last: nat)
    requires page <= last <= 10
    requires forall k :: page <= k <= last ==> fetch(k).Some? && (|fetch(k).value| < 100 <==> k == last)
    ensures Listed(fetch, page) == Some(Pages(fetch, page, last))
    decreases last - page
  {
    if page < last {
      PagesAreListed(fetch, page + 1, last);
    } else {
      assert fetch(page).value + [] == fetch(page).value;
    }
  }

  // ----- Lists with a declared total

  /** A container page: the declared total, negative when it is missing, and the items if they are a list. */
  datatype Page<T> = Page(total: int, items: Option<seq<T>>)

  /** The outcome of the loop from a page on, with the items read so far. */
  ghost function Nested<T>(
    fetch: nat -> Option<Page<T>>, page: nat, read: seq<T>, expected: Option<nat>): Option<seq<T>>
    decreases MAX_PAGES + 1 - page
  {
    if page > MAX_PAGES || fetch(page).None? then None
    else
      var got := fetch(page).value;
      if got.total < 0 || (expected.Some? && got.total != expected.value) || got.items.None? then None
      else
        var all := read + got.items.value;
        if |all| == got.total then Some(all)
        else if |all| > got.total || |got.items.value| < PAGE_SIZE then None
        else Nested(fetch, page + 1, all, Some(got.total))
  }

  /** `getNestedListWithTotal`. */
  method GetNestedListWithTotal<T>(fetch: nat -> Option<Page<T>>) returns (list: Option<seq<T>>, total: int)
    ensures list == Nested(fetch, 1, [], None)
    ensures list.Some? ==> total == |list.value|
  {
    var result: seq<T> := [];
    total := -1;
    var page := 1;
    while page <= MAX_PAGES
      invariant 1 <= page <= MAX_PAGES + 1
      invariant Nested(fetch, page, result, if total < 0 then None else Some(total)) == Nested(fetch, 1, [], None)
    {
      var container := fetch(page);
      if container.None? {
        return None, total;
      }
      var pageTotal := container.value.total;
      if pageTotal < 0 {
        return None, pageTotal;
      }
      if total < 0 {
        total := pageTotal;
      } else if pageTotal != total {
        return None, total;
      }
      if container.value.items.None? {
        return None, total;
      }
      var values := container.value.items.value;
      result := result + values;
      if |result| == total {
        return Some(result), total;
      }
      if |result| > total || |values| < PAGE_SIZE {
        return None, total;
      }
      page := page + 1;
    }
    return None, total;
  }

  /** The items of a container server. */
  function Items<T>(fetch: nat -> Option<Page<T>>): nat -> Option<seq<T>> {
    (page: nat) => if fetch(page).Some? then fetch(page).value.items else None
  }

  /** Against any server, success means: the result is the concatenation of at most ten pages read, and
      every one of them declared its length as the total. */
  lemma {:induction false} NestedIsComplete<T>(
    fetch: nat -> Option<Page<T>>, page: nat, read: seq<T>, expected: Option<nat>) returns (last: nat)
    requires Nested(fetch, page, read, expected).Some?
    ensures page <= last <= 10
    ensures forall k :: page <= k <= last ==>
      fetch(k).Some? && fetch(k).value.items.Some? &&
      fetch(k).value.total == |Nested(fetch, page, read, expected).value|
    ensures expected.Some? ==> expected.value == |Nested(fetch, page, read, expected).value|
    ensures forall k :: page <= k <= last ==> Items(fetch)(k).Some?
    ensures Nested(fetch, page, read, expected).value == read + Pages(Items(fetch), page, last)
    decreases MAX_PAGES + 1 - page
  {
    var got := fetch(page).value;
    var all := read + got.items.value;
    if |all| == got.total {
      last := page;
      assert got.items.value + [] == got.items.value;
    } else {
      last := NestedIsComplete(fetch, page + 1, all, Some(got.total));
      assert (read + got.items.value) + Pages(Items(fetch), page + 1, last) ==
        read + (got.items.value + Pages(Items(fetch), page + 1, last));
    }
  }

  /** From a page on, full pages that declare the total leave some of it to come, until a last page, the tenth at
      most, completes it. */
  ghost predicate Completes<T>(fetch: nat -> Option<Page<T>>, page: nat, last: nat, read: nat, total: nat)
    decreases last - page
  {
    && page <= last <= 10
    && fetch(page).Some? && fetch(page).value.items.Some? && fetch(page).value.total == total
    && var count := |fetch(page).value.items.value|;
       if page == last then read + count == total
       else count >= 100 && read + count < total && Completes(fetch, page + 1, last, read + count, total)
  }

  ghost predicate Completed<T>(fetch: nat -> Option<Page<T>>, page: nat, read: nat, total: nat) {
    exists last: nat :: Completes(fetch, page, last, read, total)
  }

  lemma CompletedStep<T>(fetch: nat -> Option<Page<T>>, page: nat, read: nat, total: nat)
    ensures Completed(fetch, page, read, total) <==>
      && page <= 10 && fetch(page).Some? && fetch(page).value.items.Some? && fetch(page).value.total == total
      && var count := |fetch(page).value.items.value|;
         read + count == total ||
         (count >= 100 && read + count < total && Completed(fetch, page + 1, read + count, total))
  {
    if last: nat :| Completes(fetch, page, last, read, total) {
      if page < last {
        assert Completes(fetch, page + 1, last, read + |fetch(page).value.items.value|, total);
      }
    }
    if page <= 10 && fetch(page).Some? && fetch(page).value.items.Some? && fetch(page).value.total == total {
      var count := |fetch(page).value.items.value|;
      if read + count == total {
        assert Completes(fetch, page, page, read, total);
      } else if count >= 100 && read + count < total {
        var next, all := page + 1, read + count;
        if last: nat :| Completes(fetch, next, last, all, total) {
          assert Completes(fetch, page, last, read, total);
        }
      }
    }
  }

  /** Against any server, the list succeeds with so many items exactly when such pages complete them. */
  lemma {:induction false} NestedSucceedsExactly<T>(
    fetch: nat -> Option<Page<T>>, page: nat, read: seq<T>, expected: Option<nat>, total: nat)
    requires expected.Some? ==> expected.value == total
    ensures Completed(fetch, page, |read|, total) <==>
      Nested(fetch, page, read, expected).Some? && |Nested(fetch, page, read, expected).value| == total
    decreases MAX_PAGES + 1 - page
  {
    hide Completed;
    CompletedStep(fetch, page, |read|, total);
    if page <= MAX_PAGES && fetch(page).Some? && fetch(page).value.items.Some? {
      if fetch(page).value.total == total {
        NestedSucceedsExactly(fetch, page + 1, read + fetch(page).value.items.value, Some(total), total);
      } else if Nested(fetch, page, read, expected).Some? {
        var last := NestedIsComplete(fetch, page, read, expected);
      }
    }
  }

  /** A container server for one list. */
  function Container<T>(list: seq<T>): nat -> Option<Page<T>> {
    (page: nat) => if page == 0 then None else Some(Page(|list|, Some(Slice(list, page))))
  }

  lemma {:induction false} NestedSlices<T>(list: seq<T>, page: nat, expected: Option<nat>)
    requires 1 <= page && PAGE_SIZE * (page - 1) <= |list|
    requires page > 1 ==> PAGE_SIZE * (page - 1) < |list|
    requires expected.Some? ==> expected.value == |list|
    ensures Nested(Container(list), page, list[..PAGE_SIZE * (page - 1)], expected) ==
      if |list| <= PAGE_SIZE * MAX_PAGES then Some(list) else None
    decreases MAX_PAGES + 1 - page
  {
    hide Slice;
    SliceParts(list, page);
    if page <= MAX_PAGES && |list| > PAGE_SIZE * page {
      NestedSlices(list, page + 1, Some(|list|));
    }
  }

  /** Against a server that slices a list and declares its length, the list is returned exactly when it
      has at most 1000 items. */
  lemma NestedExactly<T>(list: seq<T>)
    ensures Nested(Container(list), 1, [], None) == if |list| <= 1000 then Some(list) else None
  {
    NestedSlices(list, 1, None);
    assert list[..0] == [];
  }
}
