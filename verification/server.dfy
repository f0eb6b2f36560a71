/**
 * The book store the server keeps in memory and the request callback that
 * routes a request to one of its operations. The fresh id and the current
 * time are parameters; responses are the status code and the body's content.
 */
module Server {
  import opened Wrappers
  import opened Books
  import opened Router

  const CreateOk: string := "Buku berhasil ditambahkan"
  const CreateNameMissing: string := "Gagal menambahkan buku. Mohon isi nama buku"
  const CreatePagesExceed: string := "Gagal menambahkan buku. readPage tidak boleh lebih besar dari pageCount"
  const BookNotFound: string := "Buku tidak ditemukan"
  const UpdateOk: string := "Buku berhasil diperbarui"
  const UpdateNameMissing: string := "Gagal memperbarui buku. Mohon isi nama buku"
  const UpdatePagesExceed: string := "Gagal memperbarui buku. readPage tidak boleh lebih besar dari pageCount"
  const UpdateIdMissing: string := "Gagal memperbarui buku. Id tidak ditemukan"
  const DeleteOk: string := "Buku berhasil dihapus"
  const DeleteIdMissing: string := "Buku gagal dihapus. Id tidak ditemukan"
  const PageNotFound: string := "Halaman tidak ditemukan"

  /** The JSON body of a response, by kind. */
  datatype Body =
    | Empty                                   // the preflight answer
    | Listed(books: seq<Summary>)             // status "success", data.books
    | Added(message: string, bookId: string)  // status "success", data.bookId
    | Found(book: Book)                       // status "success", data.book
    | Success(message: string)                // status "success"
    | Fail(message: string)                   // status "fail"

  /** `Silent` is a request the callback never answers. */
  datatype Response = Silent | Reply(status: int, body: Body)

  class BookStore {
    /** The `books` array, in insertion order. */
    var books: seq<Book>

    /** Every stored book has a non-empty name: both create and update check it before writing. */
    ghost predicate Valid()
      reads this
    {
      NamesPresent(books)
    }

    /** The store is empty when the process starts. */
    constructor ()
      ensures Valid() && books == []
    {
      books := [];
    }

    /** POST /books with the parsed body `input`. */
    method Create(input: BookInput, freshId: string, now: string) returns (resp: Response)
      requires Valid()
      modifies this
      ensures Valid()
      ensures CheckInput(input) == Some(NameMissing) ==>
                books == old(books) && resp == Reply(400, Fail(CreateNameMissing))
      ensures CheckInput(input) == Some(ReadPageExceedsPageCount) ==>
                books == old(books) && resp == Reply(400, Fail(CreatePagesExceed))
      ensures CheckInput(input) == None ==>
                && books == old(books) + [NewBook(input, freshId, now)]
                && resp == Reply(201, Added(CreateOk, books[|books| - 1].id))
    {
      match CheckInput(input)
      case Some(NameMissing) =>
        resp := Reply(400, Fail(CreateNameMissing));
      case Some(ReadPageExceedsPageCount) =>
        resp := Reply(400, Fail(CreatePagesExceed));
      case None =>
        var book := NewBook(input, freshId, now);
        books := books + [book];
        resp := Reply(201, Added(CreateOk, book.id));
    }

    /** GET /books with query parameters `q`. */
    method List(q: Query) returns (resp: Response)
      ensures resp == Reply(200, Listed(ListView(books, q)))
    {
      resp := Reply(200, Listed(ListView(books, q)));
    }

    /** GET /books/{id}. */
    method Read(id: string) returns (resp: Response)
      ensures Find(books, id).Some? ==> resp == Reply(200, Found(Find(books, id).value))
      ensures Find(books, id) == None ==> resp == Reply(404, Fail(BookNotFound))
    {
      match Find(books, id)
      case Some(book) =>
        resp := Reply(200, Found(book));
      case None =>
        resp := Reply(404, Fail(BookNotFound));
    }

    /** PUT /books/{id} with the parsed body `input`; the id is looked up before the body is checked. */
    method Update(id: string, input: BookInput, now: string) returns (resp: Response)
      requires Valid()
      modifies this
      ensures Valid()
      ensures FindIndex(old(books), id) == -1 ==>
                books == old(books) && resp == Reply(404, Fail(UpdateIdMissing))
      ensures FindIndex(old(books), id) != -1 && CheckInput(input) == Some(NameMissing) ==>
                books == old(books) && resp == Reply(400, Fail(UpdateNameMissing))
      ensures FindIndex(old(books), id) != -1 && CheckInput(input) == Some(ReadPageExceedsPageCount) ==>
                books == old(books) && resp == Reply(400, Fail(UpdatePagesExceed))
      ensures FindIndex(old(books), id) != -1 && CheckInput(input) == None ==>
                var i := FindIndex(old(books), id);
                && books == old(books)[i := Merge(old(books)[i], input, now)]
                && resp == Reply(200, Success(UpdateOk))
    {
      var i := FindIndex(books, id);
      if i == -1 {
        resp := Reply(404, Fail(UpdateIdMissing));
        return;
      }
      match CheckInput(input)
      case Some(NameMissing) =>
        resp := Reply(400, Fail(UpdateNameMissing));
      case Some(ReadPageExceedsPageCount) =>
        resp := Reply(400, Fail(UpdatePagesExceed));
      case None =>
        books := books[i := Merge(books[i], input, now)];
        resp := Reply(200, Success(UpdateOk));
    }

    /** DELETE /books/{id}. */
    method Delete(id: string) returns (resp: Response)
      requires Valid()
      modifies this
      ensures Valid()
      ensures FindIndex(old(books), id) == -1 ==>
                books == old(books) && resp == Reply(404, Fail(DeleteIdMissing))
      ensures FindIndex(old(books), id) != -1 ==>
                && books == RemoveAt(old(books), FindIndex(old(books), id))
                && resp == Reply(200, Success(DeleteOk))
    {
      var i := FindIndex(books, id);
      if i == -1 {
        resp := Reply(404, Fail(DeleteIdMissing));
      } else {
        books := RemoveAt(books, i);
        resp := Reply(200, Success(DeleteOk));
      }
    }

    /**
     * The request callback: route on the method and the url, then run the
     * chosen operation. `body` is the parsed request body; only create and
     * update read it.
     */
    method Handle(verb: string, url: string, body: BookInput, freshId: string, now: string)
      returns (resp: Response)
      requires Valid()
      modifies this
      ensures Valid()
      ensures |old(books)| - 1 <= |books| <= |old(books)| + 1
      ensures Route(verb, url) == Preflight ==> books == old(books) && resp == Reply(200, Empty)
      ensures Route(verb, url) == NotFound ==> books == old(books) && resp == Reply(404, Fail(PageNotFound))
      ensures Route(verb, url) == NoResponse ==> books == old(books) && resp == Silent
      ensures Route(verb, url) == ListBooks ==>
                books == old(books) && resp == Reply(200, Listed(Project(books)))
      ensures Route(verb, url).ReadBook? ==>
                var found := Find(books, Route(verb, url).id);
                && books == old(books)
                && (found.Some? ==> resp == Reply(200, Found(found.value)))
                && (found == None ==> resp == Reply(404, Fail(BookNotFound)))
      ensures Route(verb, url) == CreateBook ==>
                && (CheckInput(body) == Some(NameMissing) ==>
                      books == old(books) && resp == Reply(400, Fail(CreateNameMissing)))
                && (CheckInput(body) == Some(ReadPageExceedsPageCount) ==>
                      books == old(books) && resp == Reply(400, Fail(CreatePagesExceed)))
                && (CheckInput(body) == None ==>
                      && books == old(books) + [NewBook(body, freshId, now)]
                      && resp == Reply(201, Added(CreateOk, NewBook(body, freshId, now).id)))
      ensures Route(verb, url).UpdateBook? ==>
                var i := FindIndex(old(books), Route(verb, url).id);
                && (i == -1 ==> books == old(books) && resp == Reply(404, Fail(UpdateIdMissing)))
                && (i != -1 && CheckInput(body) == Some(NameMissing) ==>
                      books == old(books) && resp == Reply(400, Fail(UpdateNameMissing)))
                && (i != -1 && CheckInput(body) == Some(ReadPageExceedsPageCount) ==>
                      books == old(books) && resp == Reply(400, Fail(UpdatePagesExceed)))
                && (i != -1 && CheckInput(body) == None ==>
                      books == old(books)[i := Merge(old(books)[i], body, now)] && resp == Reply(200, Success(UpdateOk)))
      ensures Route(verb, url).DeleteBook? ==>
                var i := FindIndex(old(books), Route(verb, url).id);
                && (i == -1 ==> books == old(books) && resp == Reply(404, Fail(DeleteIdMissing)))
                && (i != -1 ==> books == RemoveAt(old(books), i) && resp == Reply(200, Success(DeleteOk)))
    {
      match Route(verb, url)
      case Preflight =>
        resp := Reply(200, Empty);
      case ListBooks =>
        // The url is exactly `/books`, so there is no query string to decode.
        resp := List(map[]);
        ListViewWithoutFilters(books);
      case CreateBook =>
        resp := Create(body, freshId, now);
      case ReadBook(id) =>
        resp := Read(id);
      case UpdateBook(id) =>
        resp := Update(id, body, now);
      case DeleteBook(id) =>
        resp := Delete(id);
      case NotFound =>
        resp := Reply(404, Fail(PageNotFound));
      case NoResponse =>
        resp := Silent;
    }
  }

  /**
   * Create followed by read: the new book is found under the returned id with
   * the input's fields, the generated id and the creation time, as long as
   * the generated id is fresh and the input does not carry an id of its own.
   */
  method CreateThenRead(store: BookStore, input: BookInput, freshId: string, now: string)
    returns (created: Response, read: Response)
    requires store.Valid() && CheckInput(input) == None && input.id == None
    requires forall k :: 0 <= k < |store.books| ==> store.books[k].id != freshId
    modifies store
    ensures created == Reply(201, Added(CreateOk, freshId))
    ensures read == Reply(200, Found(NewBook(input, freshId, now)))
    ensures InputOf(read.body.book) == input.(id := Some(freshId), insertedAt := Some(now))
  {
    created := store.Create(input, freshId, now);
    CreateThenFind(old(store.books), input, freshId, now);
    read := store.Read(freshId);
    NewBookRoundTrip(input, freshId, now);
  }

  /** Delete followed by read, on a store with unique ids: the deleted id is no longer found. */
  method DeleteThenRead(store: BookStore, id: string) returns (deleted: Response, read: Response)
    requires store.Valid() && UniqueIds(store.books) && FindIndex(store.books, id) != -1
    modifies store
    ensures |store.books| == |old(store.books)| - 1
    ensures deleted == Reply(200, Success(DeleteOk))
    ensures read == Reply(404, Fail(BookNotFound))
  {
    deleted := store.Delete(id);
    DeleteThenFind(old(store.books), id);
    read := store.Read(id);
  }

  /**
   * Two books created on an empty store, one read to the end and one half
   * read: listing with `finished=1` shows only the first.
   */
  method FinishedFilterScenario(idA: string, idB: string, now: string) returns (listed: Response)
    requires idA != idB
    ensures listed == Reply(200, Listed([Summary(idA, "A", None)]))
  {
    var store := new BookStore();
    var a := BookInput(None, Some("A"), None, None, None, None, Some(100), Some(100), None, None);
    var b := BookInput(None, Some("B"), None, None, None, None, Some(100), Some(50), None, None);
    var r1 := store.Create(a, idA, now);
    var r2 := store.Create(b, idB, now);
    assert store.books == [NewBook(a, idA, now), NewBook(b, idB, now)];
    var q: Query := map["finished" := "1"];
    listed := store.List(q);
    var s := store.books;
    assert ByReading(ByName(s, q), q) == s;
    assert Param(q, "finished") == Some("1");
    assert s[0].finished && !s[1].finished;
    var keep := (x: Book) => x.finished;
    ByFinishedIsFilter(s, q, keep);
    assert Filter(s, keep) == [NewBook(a, idA, now)] by {
      assert s[1..] == [NewBook(b, idB, now)];
      assert s[1..][1..] == [];
    }
    assert ListView(s, q) == Project([NewBook(a, idA, now)]);
    assert Project([NewBook(a, idA, now)]) == [Summary(idA, "A", None)];
  }
}
