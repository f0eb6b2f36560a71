/**
 * The dispatch decision of the request callback, on the method and the raw
 * url (path and query string together, as the server receives it).
 */
module Router {
  import opened Text

  datatype Handler =
    | Preflight             // OPTIONS on any url
    | ListBooks             // GET /books
    | CreateBook            // POST /books
    | ReadBook(id: string)  // GET /books/{id}
    | UpdateBook(id: string)  // PUT /books/{id}
    | DeleteBook(id: string)  // DELETE /books/{id}
    | NotFound              // any url that is neither of the two above
    | NoResponse            // a matched url with a method no branch handles

  const Collection: string := "/books"
  const ItemPrefix: string := "/books/"

  predicate IsItemHandler(r: Handler) {
    r.ReadBook? || r.UpdateBook? || r.DeleteBook?
  }

  /** `url.split('/')[2]` for a url that starts with `/books/`. */
  function BookIdOf(url: string): (id: string)
    requires ItemPrefix <= url
    ensures id == TakeUntil(url[|ItemPrefix|..], '/')
  {
    ItemSegments(url);
    Split(url, '/')[2]
  }

  /** The parts of `/books/` + rest are "", "books" and then the parts of rest. */
  lemma ItemSegments(url: string)
    requires ItemPrefix <= url
    ensures |Split(url, '/')| >= 3 && Split(url, '/')[2] == TakeUntil(url[|ItemPrefix|..], '/')
  {
    var rest := url[|ItemPrefix|..];
    assert url == "" + ['/'] + ("books" + ['/'] + rest);
    SplitAfterSegment("", '/', "books" + ['/'] + rest);
    SplitAfterSegment("books", '/', rest);
    SplitHead(rest, '/');
  }

  /**
   * The branch the request callback takes. OPTIONS is tested before the url;
   * `/books` is compared with the whole url; `/books/` is a prefix test.
   */
  function Route(verb: string, url: string): (r: Handler)
    ensures r == Preflight <==> verb == "OPTIONS"
    ensures r == ListBooks <==> verb == "GET" && url == Collection
    ensures r == CreateBook <==> verb == "POST" && url == Collection
    ensures r.ReadBook? <==> verb == "GET" && ItemPrefix <= url
    ensures r.UpdateBook? <==> verb == "PUT" && ItemPrefix <= url
    ensures r.DeleteBook? <==> verb == "DELETE" && ItemPrefix <= url
    ensures IsItemHandler(r) ==> '/' !in r.id && ItemPrefix + r.id <= url
    ensures IsItemHandler(r) ==> |url| == |ItemPrefix + r.id| || url[|ItemPrefix + r.id|] == '/'
    ensures r == NotFound <==> verb != "OPTIONS" && url != Collection && !(ItemPrefix <= url)
    ensures r == NoResponse <==>
              verb != "OPTIONS" &&
              ((url == Collection && verb != "GET" && verb != "POST") ||
               (ItemPrefix <= url && verb != "GET" && verb != "PUT" && verb != "DELETE"))
  {
    if verb == "OPTIONS" then Preflight
    else if url == Collection then
      if verb == "GET" then ListBooks
      else if verb == "POST" then CreateBook
      else NoResponse
    else if ItemPrefix <= url then
      var id := BookIdOf(url);
      assert ItemPrefix + id <= url by {
        var rest := url[|ItemPrefix|..];
        assert url == ItemPrefix + rest;
      }
      if verb == "GET" then ReadBook(id)
      else if verb == "PUT" then UpdateBook(id)
      else if verb == "DELETE" then DeleteBook(id)
      else NoResponse
    else NotFound
  }

  /**
   * A list request that carries a query string is not routed to the list:
   * the url is compared whole with `/books`, so its filters never arrive.
   */
  lemma QueryOnCollectionIsNotFound(verb: string, query: string)
    requires verb != "OPTIONS"
    ensures Route(verb, Collection + "?" + query) == NotFound
  {
    var url := Collection + "?" + query;
    assert url[6] == '?';
    assert url != Collection;
    assert !(ItemPrefix <= url) by {
      assert ItemPrefix[6] == '/';
    }
  }
}
