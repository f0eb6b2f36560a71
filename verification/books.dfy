/**
 * Book records and the pure parts of the store operations: input validation,
 * building a new record, merging an update, `find`/`findIndex`/`splice` over
 * the store, and the filter-then-project pipeline of the list operation.
 */
module Books {
  import opened Wrappers
  import opened Text

  /**
   * A parsed request body. Every key is optional. `id` is kept because it
   * overrides the generated id on create and the stored id on update;
   * `insertedAt` is kept because it overrides the stored timestamp on update
   * (on create the timestamp is written after the spread, so the body's is
   * lost). `finished` and `updatedAt` are always overwritten and so are not
   * carried.
   */
  datatype BookInput = BookInput(
    id: Option<string>,
    name: Option<string>,
    year: Option<int>,
    author: Option<string>,
    summary: Option<string>,
    publisher: Option<string>,
    pageCount: Option<int>,
    readPage: Option<int>,
    reading: Option<bool>,
    insertedAt: Option<string>)

  /** A stored book. */
  datatype Book = Book(
    id: string,
    name: string,
    year: Option<int>,
    author: Option<string>,
    summary: Option<string>,
    publisher: Option<string>,
    pageCount: Option<int>,
    readPage: Option<int>,
    reading: Option<bool>,
    finished: bool,
    insertedAt: string,
    updatedAt: string)

  /** The `{id, name, publisher}` view a list response carries. */
  datatype Summary = Summary(id: string, name: string, publisher: Option<string>)

  datatype InputError = NameMissing | ReadPageExceedsPageCount

  /** JavaScript truthiness of a string-valued `name`: present and not empty. */
  predicate Truthy(name: Option<string>) {
    name.Some? && name.value != ""
  }

  /** `readPage > pageCount`, which is false whenever either side is absent. */
  predicate PagesExceed(readPage: Option<int>, pageCount: Option<int>) {
    readPage.Some? && pageCount.Some? && readPage.value > pageCount.value
  }

  /** The two checks shared by create and update, the name check first. */
  function CheckInput(input: BookInput): (r: Option<InputError>)
    ensures r == None <==> Truthy(input.name) && !PagesExceed(input.readPage, input.pageCount)
    ensures r == Some(NameMissing) <==> !Truthy(input.name)
    ensures r == Some(ReadPageExceedsPageCount) <==> Truthy(input.name) && PagesExceed(input.readPage, input.pageCount)
  {
    if !Truthy(input.name) then Some(NameMissing)
    else if PagesExceed(input.readPage, input.pageCount) then Some(ReadPageExceedsPageCount)
    else None
  }

  /**
   * The record a successful create appends: `{id: freshId, ...input,
   * finished, insertedAt: now, updatedAt: now}`.
   */
  function NewBook(input: BookInput, freshId: string, now: string): (b: Book)
    requires Truthy(input.name)
    ensures b.name != ""
    ensures b.finished <==> b.pageCount == b.readPage
    ensures b.insertedAt == now && b.updatedAt == now
    ensures input.id == None ==> b.id == freshId
  {
    Book(input.id.GetOr(freshId), input.name.value, input.year, input.author, input.summary,
         input.publisher, input.pageCount, input.readPage, input.reading,
         input.pageCount == input.readPage, now, now)
  }

  /** The request body that carries every field of `b`. */
  function InputOf(b: Book): BookInput {
    BookInput(Some(b.id), Some(b.name), b.year, b.author, b.summary, b.publisher,
              b.pageCount, b.readPage, b.reading, Some(b.insertedAt))
  }

  /** A created book holds exactly the input's fields, plus the chosen id and the creation time. */
  lemma NewBookRoundTrip(input: BookInput, freshId: string, now: string)
    requires Truthy(input.name)
    ensures InputOf(NewBook(input, freshId, now))
            == input.(id := Some(input.id.GetOr(freshId)), insertedAt := Some(now))
  {
  }

  /**
   * The record an update writes: `{...b, ...input, finished, updatedAt: now}`,
   * where `finished` is computed from the input's page fields.
   */
  function Merge(b: Book, input: BookInput, now: string): (r: Book)
    ensures r.finished <==> input.pageCount == input.readPage
    ensures r.updatedAt == now
    ensures r.id == input.id.GetOr(b.id) && r.insertedAt == input.insertedAt.GetOr(b.insertedAt)
    ensures r.name == input.name.GetOr(b.name)
    ensures r.year == input.year.Or(b.year) && r.author == input.author.Or(b.author)
    ensures r.summary == input.summary.Or(b.summary) && r.publisher == input.publisher.Or(b.publisher)
    ensures r.pageCount == input.pageCount.Or(b.pageCount) && r.readPage == input.readPage.Or(b.readPage)
    ensures r.reading == input.reading.Or(b.reading)
  {
    b.(id := input.id.GetOr(b.id),
       name := input.name.GetOr(b.name),
       year := input.year.Or(b.year),
       author := input.author.Or(b.author),
       summary := input.summary.Or(b.summary),
       publisher := input.publisher.Or(b.publisher),
       pageCount := input.pageCount.Or(b.pageCount),
       readPage := input.readPage.Or(b.readPage),
       reading := input.reading.Or(b.reading),
       finished := input.pageCount == input.readPage,
       insertedAt := input.insertedAt.GetOr(b.insertedAt),
       updatedAt := now)
  }

  /** Applying the same update twice is applying it once. */
  lemma MergeIdempotent(b: Book, input: BookInput, now: string)
    ensures Merge(Merge(b, input, now), input, now) == Merge(b, input, now)
  {
  }

  /** Updating a consistent book with its own fields and timestamp changes nothing. */
  lemma MergeWithOwnFields(b: Book)
    requires b.finished <==> b.pageCount == b.readPage
    ensures Merge(b, InputOf(b), b.updatedAt) == b
  {
  }

  /**
   * An update that passes validation can leave a record whose `finished`
   * disagrees with its own page fields: `finished` is computed from the
   * input's page fields, not from the merged record's.
   */
  lemma MergeCanDesyncFinished()
    ensures exists b: Book, input: BookInput ::
              && CheckInput(input) == None
              && (b.finished <==> b.pageCount == b.readPage)
              && var r := Merge(b, input, "t1");
                 r.finished && r.pageCount != r.readPage
  {
    var b := Book("b1", "Dune", None, None, None, None, Some(10), Some(5), None, false, "t0", "t0");
    var input := BookInput(None, Some("Dune"), None, None, None, None, None, None, None, None);
    assert CheckInput(input) == None;
    var r := Merge(b, input, "t1");
    assert r.finished && r.pageCount == Some(10) && r.readPage == Some(5);
  }

  /**
   * An update that passes validation can leave a record whose `readPage`
   * exceeds its `pageCount`: the page check looks at the input alone.
   */
  lemma MergeCanExceedPageCount()
    ensures exists b: Book, input: BookInput ::
              && CheckInput(input) == None
              && !PagesExceed(b.readPage, b.pageCount)
              && var r := Merge(b, input, "t1");
                 PagesExceed(r.readPage, r.pageCount)
  {
    var b := Book("b1", "Dune", None, None, None, None, Some(10), Some(10), None, true, "t0", "t0");
    var input := BookInput(None, Some("Dune"), None, None, None, None, None, Some(50), None, None);
    assert CheckInput(input) == None;
    var r := Merge(b, input, "t1");
    assert r.pageCount == Some(10) && r.readPage == Some(50);
  }

  /** Every stored book has a non-empty name. */
  ghost predicate NamesPresent(s: seq<Book>) {
    forall i :: 0 <= i < |s| ==> s[i].name != ""
  }

  /** No two stored books share an id. */
  ghost predicate UniqueIds(s: seq<Book>) {
    forall i, j :: 0 <= i < j < |s| ==> s[i].id != s[j].id
  }

  /** `s.findIndex(b => b.id === id)`: the first index holding `id`, or -1. */
  function FindIndex(s: seq<Book>, id: string): (i: int)
    ensures -1 <= i < |s|
    ensures i == -1 <==> forall k :: 0 <= k < |s| ==> s[k].id != id
    ensures 0 <= i ==> s[i].id == id && forall k :: 0 <= k < i ==> s[k].id != id
  {
    if |s| == 0 then -1
    else if s[0].id == id then 0
    else
      var j := FindIndex(s[1..], id);
      if j == -1 then -1 else j + 1
  }

  /** `s.find(b => b.id === id)`: a book of `s` carrying `id`, if there is one. */
  function Find(s: seq<Book>, id: string): (r: Option<Book>)
    ensures r.Some? ==> r.value in s && r.value.id == id
    ensures r == None <==> forall k :: 0 <= k < |s| ==> s[k].id != id
  {
    if |s| == 0 then None
    else if s[0].id == id then Some(s[0])
    else Find(s[1..], id)
  }

  /** `find` returns the book at the index `findIndex` reports: the first match. */
  lemma {:induction false} FindAtFindIndex(s: seq<Book>, id: string)
    ensures Find(s, id) == if FindIndex(s, id) == -1 then None else Some(s[FindIndex(s, id)])
  {
    if |s| > 0 && s[0].id != id {
      FindAtFindIndex(s[1..], id);
    }
  }

  /** Finding in a store with one more book at the end. */
  lemma {:induction false} FindAppend(s: seq<Book>, b: Book, id: string)
    ensures Find(s + [b], id) == if Find(s, id).Some? then Find(s, id) else if b.id == id then Some(b) else None
  {
    if |s| > 0 {
      assert (s + [b])[1..] == s[1..] + [b];
      FindAppend(s[1..], b, id);
    }
  }

  /** `s.splice(i, 1)`: the store without its `i`-th book. */
  function RemoveAt(s: seq<Book>, i: nat): (r: seq<Book>)
    requires i < |s|
    ensures |r| == |s| - 1
    ensures multiset(r) + multiset{s[i]} == multiset(s)
    ensures forall k :: 0 <= k < |r| ==> r[k] == if k < i then s[k] else s[k + 1]
  {
    assert s == s[..i] + [s[i]] + s[i + 1..];
    s[..i] + s[i + 1..]
  }

  /**
   * A created book is found again by its generated id, and the store keeps
   * unique ids, when that id is fresh and the input does not carry its own.
   */
  lemma CreateThenFind(s: seq<Book>, input: BookInput, freshId: string, now: string)
    requires CheckInput(input) == None && input.id == None
    requires forall k :: 0 <= k < |s| ==> s[k].id != freshId
    ensures Find(s + [NewBook(input, freshId, now)], freshId) == Some(NewBook(input, freshId, now))
    ensures UniqueIds(s) ==> UniqueIds(s + [NewBook(input, freshId, now)])
  {
    FindAppend(s, NewBook(input, freshId, now), freshId);
  }

  /** After deleting the first book with `id` from a store with unique ids, no book carries `id`. */
  lemma {:induction false} DeleteThenFind(s: seq<Book>, id: string)
    requires UniqueIds(s) && FindIndex(s, id) != -1
    ensures Find(RemoveAt(s, FindIndex(s, id)), id) == None
    ensures UniqueIds(RemoveAt(s, FindIndex(s, id)))
  {
    var i := FindIndex(s, id);
    var r := RemoveAt(s, i);
    assert forall k :: 0 <= k < |r| ==> r[k].id != id by {
      forall k | 0 <= k < |r| ensures r[k].id != id {
        if k >= i {
          assert s[i].id != s[k + 1].id;
        }
      }
    }
    assert UniqueIds(r) by {
      forall a, b | 0 <= a < b < |r| ensures r[a].id != r[b].id {
        var a', b' := if a < i then a else a + 1, if b < i then b else b + 1;
        assert r[a] == s[a'] && r[b] == s[b'] && a' < b';
      }
    }
  }

  /** `s.filter(keep)`: the elements of `s` that `keep` accepts. */
  function Filter<T(==)>(s: seq<T>, keep: T -> bool): (r: seq<T>)
    ensures |r| <= |s|
    ensures forall i :: 0 <= i < |r| ==> keep(r[i]) && r[i] in s
    ensures forall x :: x in s && keep(x) ==> x in r
  {
    if |s| == 0 then []
    else (if keep(s[0]) then [s[0]] else []) + Filter(s[1..], keep)
  }

  /** Filtering keeps the order of the store: it distributes over concatenation. */
  lemma {:induction false} FilterAppend<T>(a: seq<T>, b: seq<T>, keep: T -> bool)
    ensures Filter(a + b, keep) == Filter(a, keep) + Filter(b, keep)
  {
    if |a| == 0 {
      assert a + b == b;
    } else {
      assert (a + b)[0] == a[0];
      assert (a + b)[1..] == a[1..] + b;
      FilterAppend(a[1..], b, keep);
    }
  }

  /** Two filters in a row are one filter by their conjunction `both`. */
  lemma {:induction false} FilterFusion<T>(s: seq<T>, p: T -> bool, q: T -> bool, both: T -> bool)
    requires forall i :: 0 <= i < |s| ==> both(s[i]) == (p(s[i]) && q(s[i]))
    ensures Filter(Filter(s, p), q) == Filter(s, both)
  {
    if |s| > 0 {
      FilterFusion(s[1..], p, q, both);
      var rest := Filter(s[1..], p);
      if p(s[0]) {
        assert Filter(s, p) == [s[0]] + rest;
        FilterAppend([s[0]], rest, q);
        assert Filter([s[0]], q) == if q(s[0]) then [s[0]] else [];
      } else {
        assert Filter(s, p) == rest;
      }
    }
  }

  /** Filters that agree on every element of `s` select the same elements. */
  lemma {:induction false} FilterAgree<T>(s: seq<T>, p: T -> bool, q: T -> bool)
    requires forall i :: 0 <= i < |s| ==> p(s[i]) == q(s[i])
    ensures Filter(s, p) == Filter(s, q)
  {
    if |s| > 0 {
      FilterAgree(s[1..], p, q);
    }
  }

  /** A filter that accepts every element of `s` returns `s`. */
  lemma {:induction false} FilterAll<T>(s: seq<T>, keep: T -> bool)
    requires forall i :: 0 <= i < |s| ==> keep(s[i])
    ensures Filter(s, keep) == s
  {
    if |s| > 0 {
      FilterAll(s[1..], keep);
    }
  }

  /** The query string parameters of a list request, decoded: one value per key. */
  type Query = map<string, string>

  /** `urlParams.get(key)`: `None` plays the part of `null`. */
  function Param(q: Query, key: string): Option<string> {
    if key in q then Some(q[key]) else None
  }

  /** `urlParams.get('name') || ''`. */
  function NameFilter(q: Query): string {
    Param(q, "name").GetOr("")
  }

  /** The name filter: inactive when empty, else a case-insensitive substring test. */
  predicate NameOk(q: Query, b: Book) {
    NameFilter(q) == "" || Includes(ToLower(b.name), ToLower(NameFilter(q)))
  }

  /** The reading filter: inactive when absent, else `reading === (param === '1')`. */
  predicate ReadingOk(q: Query, b: Book) {
    Param(q, "reading").None? || b.reading == Some(Param(q, "reading").value == "1")
  }

  /** The finished filter: inactive when absent, else `finished === (param === '1')`. */
  predicate FinishedOk(q: Query, b: Book) {
    Param(q, "finished").None? || b.finished == (Param(q, "finished").value == "1")
  }

  /** A book is listed when it passes every active filter. */
  predicate Matches(q: Query, b: Book) {
    NameOk(q, b) && ReadingOk(q, b) && FinishedOk(q, b)
  }

  function Summarize(b: Book): Summary {
    Summary(b.id, b.name, b.publisher)
  }

  /** `books.map(({id, name, publisher}) => ({id, name, publisher}))`. */
  function Project(s: seq<Book>): (r: seq<Summary>)
    ensures |r| == |s|
    ensures forall i :: 0 <= i < |s| ==> r[i] == Summarize(s[i])
  {
    seq(|s|, i requires 0 <= i < |s| => Summarize(s[i]))
  }

  /** Line one of the list pipeline: the name filter, when active. */
  function ByName(s: seq<Book>, q: Query): (r: seq<Book>)
    ensures |r| <= |s|
    ensures forall i :: 0 <= i < |r| ==> r[i] in s && NameOk(q, r[i])
    ensures forall b :: b in s && NameOk(q, b) ==> b in r
  {
    if NameFilter(q) != "" then Filter(s, (b: Book) => Includes(ToLower(b.name), ToLower(NameFilter(q)))) else s
  }

  /** Line two of the list pipeline: the reading filter, when active. */
  function ByReading(s: seq<Book>, q: Query): (r: seq<Book>)
    ensures |r| <= |s|
    ensures forall i :: 0 <= i < |r| ==> r[i] in s && ReadingOk(q, r[i])
    ensures forall b :: b in s && ReadingOk(q, b) ==> b in r
  {
    if Param(q, "reading").Some? then Filter(s, (b: Book) => b.reading == Some(Param(q, "reading").value == "1")) else s
  }

  /** Line three of the list pipeline: the finished filter, when active. */
  function ByFinished(s: seq<Book>, q: Query): (r: seq<Book>)
    ensures |r| <= |s|
    ensures forall i :: 0 <= i < |r| ==> r[i] in s && FinishedOk(q, r[i])
    ensures forall b :: b in s && FinishedOk(q, b) ==> b in r
  {
    if Param(q, "finished").Some? then Filter(s, (b: Book) => b.finished == (Param(q, "finished").value == "1")) else s
  }

  /** `x` is the summary of a stored book that passes every active filter. */
  ghost predicate SummaryOfMatch(s: seq<Book>, q: Query, x: Summary) {
    exists b :: b in s && Matches(q, b) && x == Summarize(b)
  }

  /** The list pipeline as written: the three filters one after another, then the projection. */
  function ListView(s: seq<Book>, q: Query): (r: seq<Summary>)
    ensures |r| <= |s|
    ensures forall b :: b in s && Matches(q, b) ==> Summarize(b) in r
    ensures forall i :: 0 <= i < |r| ==> SummaryOfMatch(s, q, r[i])
  {
    var byName := ByName(s, q);
    var byReading := ByReading(byName, q);
    var byFinished := ByFinished(byReading, q);
    var r := Project(byFinished);
    PipelineSound(s, q, byName, byReading, byFinished, r);
    PipelineComplete(s, q, byName, byReading, byFinished);
    ProjectContains(byFinished);
    r
  }

  /** Every book the three filters keep is a stored book that passes all of them. */
  lemma PipelineSound(s: seq<Book>, q: Query, byName: seq<Book>, byReading: seq<Book>, byFinished: seq<Book>,
                      listed: seq<Summary>)
    requires byName == ByName(s, q) && byReading == ByReading(byName, q) && byFinished == ByFinished(byReading, q)
    requires listed == Project(byFinished)
    ensures forall i :: 0 <= i < |byFinished| ==> byFinished[i] in s && Matches(q, byFinished[i])
    ensures forall i :: 0 <= i < |listed| ==> SummaryOfMatch(s, q, listed[i])
  {
    forall i | 0 <= i < |byFinished| ensures byFinished[i] in s && Matches(q, byFinished[i]) {
      var b := byFinished[i];
      assert b in byReading && FinishedOk(q, b);
      var j :| 0 <= j < |byReading| && byReading[j] == b;
      assert b in byName && ReadingOk(q, b);
    }
    forall i | 0 <= i < |listed|
      ensures SummaryOfMatch(s, q, listed[i])
    {
      var b := byFinished[i];
      assert b in s && Matches(q, b) && listed[i] == Summarize(b);
    }
  }

  /** Every stored book that passes all filters survives the three filters. */
  lemma PipelineComplete(s: seq<Book>, q: Query, byName: seq<Book>, byReading: seq<Book>, byFinished: seq<Book>)
    requires byName == ByName(s, q) && byReading == ByReading(byName, q) && byFinished == ByFinished(byReading, q)
    ensures forall b :: b in s && Matches(q, b) ==> b in byFinished
  {
    forall b | b in s && Matches(q, b) ensures b in byFinished {
      assert b in byName;
      assert b in byReading;
    }
  }

  /** The projection holds the summary of every book it is given. */
  lemma ProjectContains(t: seq<Book>)
    ensures forall b :: b in t ==> Summarize(b) in Project(t)
  {
    forall b | b in t ensures Summarize(b) in Project(t) {
      var k :| 0 <= k < |t| && t[k] == b;
      assert Project(t)[k] == Summarize(b);
    }
  }

  lemma {:induction false} ByNameIsFilter(s: seq<Book>, q: Query, keep: Book -> bool)
    requires forall i :: 0 <= i < |s| ==> keep(s[i]) == NameOk(q, s[i])
    ensures ByName(s, q) == Filter(s, keep)
  {
    if NameFilter(q) != "" {
      FilterAgree(s, (b: Book) => Includes(ToLower(b.name), ToLower(NameFilter(q))), keep);
    } else {
      FilterAll(s, keep);
    }
  }

  lemma {:induction false} ByReadingIsFilter(s: seq<Book>, q: Query, keep: Book -> bool)
    requires forall i :: 0 <= i < |s| ==> keep(s[i]) == ReadingOk(q, s[i])
    ensures ByReading(s, q) == Filter(s, keep)
  {
    if Param(q, "reading").Some? {
      var want := Param(q, "reading").value == "1";
      var p := (b: Book) => b.reading == Some(Param(q, "reading").value == "1");
      assert ByReading(s, q) == Filter(s, p);
      forall i | 0 <= i < |s| ensures p(s[i]) == keep(s[i]) {
        assert ReadingOk(q, s[i]) == (s[i].reading == Some(want));
      }
      FilterAgree(s, p, keep);
    } else {
      FilterAll(s, keep);
    }
  }

  lemma {:induction false} ByFinishedIsFilter(s: seq<Book>, q: Query, keep: Book -> bool)
    requires forall i :: 0 <= i < |s| ==> keep(s[i]) == FinishedOk(q, s[i])
    ensures ByFinished(s, q) == Filter(s, keep)
  {
    if Param(q, "finished").Some? {
      var want := Param(q, "finished").value == "1";
      var p := (b: Book) => b.finished == (Param(q, "finished").value == "1");
      assert ByFinished(s, q) == Filter(s, p);
      forall i | 0 <= i < |s| ensures p(s[i]) == keep(s[i]) {
        assert FinishedOk(q, s[i]) == (s[i].finished == want);
      }
      FilterAgree(s, p, keep);
    } else {
      FilterAll(s, keep);
    }
  }

  /** The list pipeline projects, in store order, exactly the books that pass every active filter. */
  lemma ListViewIsConjunction(s: seq<Book>, q: Query)
    ensures ListView(s, q) == Project(Filter(s, (b: Book) => Matches(q, b)))
  {
    var pn := (b: Book) => NameOk(q, b);
    var pr := (b: Book) => ReadingOk(q, b);
    var pf := (b: Book) => FinishedOk(q, b);
    var pnr := (b: Book) => NameOk(q, b) && ReadingOk(q, b);
    ByNameIsFilter(s, q, pn);
    var byName := Filter(s, pn);
    ByReadingIsFilter(byName, q, pr);
    FilterFusion(s, pn, pr, pnr);
    var byReading := Filter(s, pnr);
    ByFinishedIsFilter(byReading, q, pf);
    FilterFusion(s, pnr, pf, (b: Book) => Matches(q, b));
  }

  /** With no query parameters, every book is listed, in store order. */
  lemma ListViewWithoutFilters(s: seq<Book>)
    ensures ListView(s, map[]) == Project(s)
  {
  }

  /** A book whose name differs from the name filter only in ASCII letter case passes the name filter. */
  lemma CaseVariantNamePasses(q: Query, b: Book)
    requires ToLower(b.name) == ToLower(NameFilter(q))
    ensures NameOk(q, b)
  {
    IncludesItself(ToLower(b.name));
  }

  /** Name filters with the same lower-case form accept the same books. */
  lemma SameLowerSameNameOk(q1: Query, q2: Query, b: Book)
    requires ToLower(NameFilter(q1)) == ToLower(NameFilter(q2))
    ensures NameOk(q1, b) == NameOk(q2, b)
  {
    assert |NameFilter(q1)| == |ToLower(NameFilter(q1))|;
    assert |NameFilter(q2)| == |ToLower(NameFilter(q2))|;
  }

  /** Queries that differ only in the case of the name filter select the same books. */
  lemma SameLowerSameMatches(s: seq<Book>, q1: Query, q2: Query)
    requires ToLower(NameFilter(q1)) == ToLower(NameFilter(q2))
    requires Param(q1, "reading") == Param(q2, "reading") && Param(q1, "finished") == Param(q2, "finished")
    ensures Filter(s, (b: Book) => Matches(q1, b)) == Filter(s, (b: Book) => Matches(q2, b))
  {
    forall i | 0 <= i < |s| ensures Matches(q1, s[i]) == Matches(q2, s[i]) {
      SameLowerSameNameOk(q1, q2, s[i]);
    }
    FilterAgree(s, (b: Book) => Matches(q1, b), (b: Book) => Matches(q2, b));
  }

  /** The name filter ignores case: two filters with the same lower-case form list the same books. */
  lemma {:induction false} NameFilterIgnoresCase(s: seq<Book>, q: Query, name1: string, name2: string)
    requires ToLower(name1) == ToLower(name2)
    ensures ListView(s, q["name" := name1]) == ListView(s, q["name" := name2])
  {
    var q1, q2 := q["name" := name1], q["name" := name2];
    SameLowerSameMatches(s, q1, q2);
    ListViewIsConjunction(s, q1);
    ListViewIsConjunction(s, q2);
  }
}
