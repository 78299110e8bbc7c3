/** The offset/limit loop of the list endpoints: fetch, append the page's `data`,
    stop at the first page shorter than `limit`, otherwise fetch again at the
    page's `pagination.next_offset`. */
module Pagination {
  import opened Outcomes
  import opened Json
  import opened Http

  /** How a run of the loop ends. `Unfinished` means every page given was full, so
      the loop goes on to fetch at `next`, beyond the pages given. */
  datatype PageOutcome =
    | Collected(items: seq<Json>)
    | Raised(error: ApiError)
    | Unfinished(items: seq<Json>, next: Json)

  /** The offset sent with each fetch, in order, and how the loop ended. */
  datatype PageRun = PageRun(offsets: seq<Json>, outcome: PageOutcome)

  /** What `all_events += body["data"]` appends, and whose length `len` takes: the
      items of a list, or the characters of a string. */
  function Data(body: Json): Option<seq<Json>>
  {
    match Field(body, "data")
    case Some(v) => Elements(v)
    case None => None
  }

  /** `body["pagination"]["next_offset"]`. */
  function NextOffset(body: Json): Option<Json>
  {
    match Field(body, "pagination")
    case Some(p) => Field(p, "next_offset")
    case None => None
  }

  /** `pages[i]` is what the i-th `get` of the loop returned or raised; `offset` is
      the offset of the first fetch. */
  function Paginate(pages: seq<Outcome<Json>>, limit: int, offset: Json): (run: PageRun)
    ensures pages != [] ==> 1 <= |run.offsets| <= |pages| && run.offsets[0] == offset
    ensures run.outcome.Unfinished? ==> |run.offsets| == |pages|
    decreases |pages|
  {
    if pages == [] then
      PageRun([], Unfinished([], offset))
    else
      match pages[0]
      case Err(e) => PageRun([offset], Raised(e))
      case Ok(body) =>
        match Data(body)
        case None => PageRun([offset], Raised(MalformedBody))
        case Some(items) =>
          if |items| < limit then
            PageRun([offset], Collected(items))
          else
            match NextOffset(body)
            case None => PageRun([offset], Raised(MalformedBody))
            case Some(next) =>
              var rest := Paginate(pages[1..], limit, next);
              PageRun([offset] + rest.offsets, Prepend(items, rest.outcome))
  }

  /** The items of this page go before whatever the rest of the run collects. */
  function Prepend(items: seq<Json>, outcome: PageOutcome): PageOutcome
  {
    match outcome
    case Collected(more) => Collected(items + more)
    case Raised(e) => Raised(e)
    case Unfinished(more, next) => Unfinished(items + more, next)
  }

  /** A page that makes the loop go on: a `data` list of at least `limit` items and
      a next offset. */
  predicate IsFull(page: Outcome<Json>, limit: int)
  {
    page.Ok? && Data(page.value).Some? && |Data(page.value).value| >= limit && NextOffset(page.value).Some?
  }

  /** A page that ends the loop. */
  predicate IsShort(page: Outcome<Json>, limit: int)
  {
    page.Ok? && Data(page.value).Some? && |Data(page.value).value| < limit
  }

  /** The `data` of a page (empty when it has none). */
  function Items(page: Outcome<Json>): seq<Json>
  {
    if page.Ok? && Data(page.value).Some? then Data(page.value).value else []
  }

  /** The `data` lists of `pages`, concatenated in order. */
  function Concat(pages: seq<Outcome<Json>>): seq<Json>
    decreases |pages|
  {
    if pages == [] then [] else Items(pages[0]) + Concat(pages[1..])
  }

  /** The offset the fetch after `page` uses. */
  function NextOf(page: Outcome<Json>, limit: int): Json
    requires IsFull(page, limit)
  {
    NextOffset(page.value).value
  }

  /** Full pages up to `k` and a short page at `k`: the loop makes exactly k + 1
      fetches, the first at `offset` and each later one at the previous page's next
      offset, and returns the data of those pages concatenated in order. */
  lemma {:induction false} StopsAtFirstShortPage(pages: seq<Outcome<Json>>, limit: int, offset: Json, k: nat)
    requires k < |pages|
    requires forall i :: 0 <= i < k ==> IsFull(pages[i], limit)
    requires IsShort(pages[k], limit)
    ensures var run := Paginate(pages, limit, offset);
      && run.outcome == Collected(Concat(pages[..k + 1]))
      && |run.offsets| == k + 1
      && run.offsets[0] == offset
      && forall i :: 0 < i <= k ==> run.offsets[i] == NextOf(pages[i - 1], limit)
    decreases k
  {
    var run := Paginate(pages, limit, offset);
    if k == 0 {
      assert pages[..1][1..] == [];
      assert Concat(pages[..1]) == Items(pages[0]) + Concat([]);
    } else {
      assert IsFull(pages[0], limit);
      var next := NextOf(pages[0], limit);
      forall i | 0 <= i < k - 1
        ensures IsFull(pages[1..][i], limit)
      {
        assert pages[1..][i] == pages[i + 1];
      }
      StopsAtFirstShortPage(pages[1..], limit, next, k - 1);
      var rest := Paginate(pages[1..], limit, next);
      assert run.offsets == [offset] + rest.offsets;
      assert pages[..k + 1][1..] == pages[1..][..k];
      assert Concat(pages[..k + 1]) == Items(pages[0]) + Concat(pages[1..][..k]);
      forall i | 0 < i <= k
        ensures run.offsets[i] == NextOf(pages[i - 1], limit)
      {
        if i > 1 {
          assert run.offsets[i] == rest.offsets[i - 1];
          assert pages[1..][i - 2] == pages[i - 1];
        }
      }
    }
  }

  /** Conversely, a run that collects a result stopped at a short page, and every
      page before it was full. */
  lemma {:induction false} CollectedEndsAtShortPage(pages: seq<Outcome<Json>>, limit: int, offset: Json)
    requires Paginate(pages, limit, offset).outcome.Collected?
    ensures var k := |Paginate(pages, limit, offset).offsets| - 1;
      && 0 <= k < |pages|
      && (forall i :: 0 <= i < k ==> IsFull(pages[i], limit))
      && IsShort(pages[k], limit)
    decreases |pages|
  {
    var run := Paginate(pages, limit, offset);
    if |run.offsets| > 1 {
      assert IsFull(pages[0], limit);
      var next := NextOf(pages[0], limit);
      var rest := Paginate(pages[1..], limit, next);
      CollectedEndsAtShortPage(pages[1..], limit, next);
      assert |run.offsets| == 1 + |rest.offsets|;
      forall i | 0 < i < |run.offsets| - 1
        ensures IsFull(pages[i], limit)
      {
        assert pages[1..][i - 1] == pages[i];
      }
      assert pages[1..][|rest.offsets| - 1] == pages[|run.offsets| - 1];
    }
  }

  /** Pages that are all full never end the loop: it fetches once more, at the last
      page's next offset, even if that page would come back empty. */
  lemma {:induction false} FullPagesFetchAgain(pages: seq<Outcome<Json>>, limit: int, offset: Json)
    requires pages != []
    requires forall i :: 0 <= i < |pages| ==> IsFull(pages[i], limit)
    ensures Paginate(pages, limit, offset).outcome
      == Unfinished(Concat(pages), NextOf(pages[|pages| - 1], limit))
    decreases |pages|
  {
    var next := NextOf(pages[0], limit);
    if |pages| == 1 {
      assert pages[1..] == [];
      assert Concat(pages) == Items(pages[0]) + Concat([]);
    } else {
      forall i | 0 <= i < |pages| - 1
        ensures IsFull(pages[1..][i], limit)
      {
        assert pages[1..][i] == pages[i + 1];
      }
      FullPagesFetchAgain(pages[1..], limit, next);
      assert pages[1..][|pages[1..]| - 1] == pages[|pages| - 1];
    }
  }

  /** An exception in any fetch ends the loop with that exception: the pages
      collected so far are not returned. */
  lemma {:induction false} RaisedFetchDiscardsPages(
    pages: seq<Outcome<Json>>, limit: int, offset: Json, k: nat)
    requires k < |pages|
    requires forall i :: 0 <= i < k ==> IsFull(pages[i], limit)
    requires pages[k].Err?
    ensures Paginate(pages, limit, offset).outcome == Raised(pages[k].error)
    ensures |Paginate(pages, limit, offset).offsets| == k + 1
    decreases k
  {
    if k > 0 {
      var next := NextOf(pages[0], limit);
      forall i | 0 <= i < k - 1
        ensures IsFull(pages[1..][i], limit)
      {
        assert pages[1..][i] == pages[i + 1];
      }
      RaisedFetchDiscardsPages(pages[1..], limit, next, k - 1);
    }
  }

  /** A page of `n` items whose next offset is `next`. */
  function PageOf(n: nat, next: int): Outcome<Json>
  {
    Ok(JObject(map[
      "data" := JList(seq(n, i => JInt(i))),
      "pagination" := JObject(map["next_offset" := JInt(next)])]))
  }

  lemma PageOfShape(n: nat, next: int, limit: int)
    ensures Items(PageOf(n, next)) == seq(n, i => JInt(i))
    ensures n >= limit ==> IsFull(PageOf(n, next), limit) && NextOf(PageOf(n, next), limit) == JInt(next)
    ensures n < limit ==> IsShort(PageOf(n, next), limit)
  {
    var body := PageOf(n, next).value;
    assert Field(body, "data") == Some(JList(seq(n, i => JInt(i))));
    assert Field(body, "pagination") == Some(JObject(map["next_offset" := JInt(next)]));
  }

  /** With limit 100, pages of 100, 100 and 37 items take three fetches, at offsets
      0, 100 and 200, and give 237 items. */
  lemma ShortLastPageRun()
    ensures var run := Paginate([PageOf(100, 100), PageOf(100, 200), PageOf(37, 237)], 100, JInt(0));
      && run.offsets == [JInt(0), JInt(100), JInt(200)]
      && run.outcome.Collected? && |run.outcome.items| == 237
  {
    PageOfShape(100, 100, 100);
    PageOfShape(100, 200, 100);
    PageOfShape(37, 237, 100);
    var pages := [PageOf(100, 100), PageOf(100, 200), PageOf(37, 237)];
    StopsAtFirstShortPage(pages, 100, JInt(0), 2);
    assert pages[..3] == pages;
    ConcatLength(pages);
  }

  /** When the items run out exactly at a page boundary, one more fetch returns an
      empty page: 100, 100, 100 and 0 items take four fetches and give 300. */
  lemma EmptyLastPageRun()
    ensures var run := Paginate([PageOf(100, 100), PageOf(100, 200), PageOf(100, 300), PageOf(0, 300)], 100, JInt(0));
      && |run.offsets| == 4
      && run.outcome.Collected? && |run.outcome.items| == 300
  {
    PageOfShape(100, 100, 100);
    PageOfShape(100, 200, 100);
    PageOfShape(100, 300, 100);
    PageOfShape(0, 300, 100);
    var pages := [PageOf(100, 100), PageOf(100, 200), PageOf(100, 300), PageOf(0, 300)];
    StopsAtFirstShortPage(pages, 100, JInt(0), 3);
    assert pages[..4] == pages;
    ConcatLength(pages);
  }

  /** A `data` string is appended character by character: `{"data": "ab"}` with
      limit 100 is a short page, and the loop returns ["a", "b"]. */
  lemma StringDataIsCharacters()
    ensures Paginate([Ok(JObject(map["data" := JStr("ab")]))], 100, JInt(0))
      == PageRun([JInt(0)], Collected([JStr("a"), JStr("b")]))
  {
    var body := JObject(map["data" := JStr("ab")]);
    assert Field(body, "data") == Some(JStr("ab"));
    var items := Data(body).value;
    assert |items| == 2 && items[0] == JStr("a") && items[1] == JStr("b");
    assert items == [JStr("a"), JStr("b")];
  }

  /** The length of a concatenation is the sum of the page lengths. */
  function TotalItems(pages: seq<Outcome<Json>>): nat
    decreases |pages|
  {
    if pages == [] then 0 else |Items(pages[0])| + TotalItems(pages[1..])
  }

  lemma {:induction false} ConcatLength(pages: seq<Outcome<Json>>)
    ensures |Concat(pages)| == TotalItems(pages)
    decreases |pages|
  {
    if pages != [] {
      ConcatLength(pages[1..]);
    }
  }
}
