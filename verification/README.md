# Bookshelf API, modelled in Dafny

This is a model of the bookshelf HTTP service. The service keeps an in-memory array of book records. One request callback routes each request by method and url to one of five store operations:

- create (`POST /books`)
- list with filters (`GET /books`)
- read one (`GET /books/{id}`)
- update (`PUT /books/{id}`)
- delete (`DELETE /books/{id}`)

It also answers CORS preflight (`OPTIONS`) and sends 404 for any other url.

The model has five modules:

- `Wrappers`: an `Option` type, for JSON keys that may be present or absent.
- `Text`: ASCII lower-casing, `includes`, and `split`/`join` on one separator character.
- `Books`: the book record and the parsed request body (`BookInput`), plus the pure parts of the operations:
  - the two validation checks (`CheckInput`)
  - the record a create builds (`NewBook`)
  - the spread-merge an update writes (`Merge`)
  - `find`, `findIndex` and `splice` (`Find`, `FindIndex`, `RemoveAt`)
  - the list pipeline of three filters and a projection (`ListView`)
- `Router`: the branch the callback takes, as a pure function of (method, url).
- `Server`: the `BookStore` class, whose `books: seq<Book>` field the methods `Create`, `Update` and `Delete` change in place. `List` and `Read` only read it. `Handle` is the whole request callback: route first, then the operation.

The generated id (`nanoid()`) and the current time (`new Date().toISOString()`) are method parameters.

Behaviour the model keeps on purpose:

- The url is compared with `/books` as a whole. So `GET /books?name=x` gets 404 (`Router.QueryOnCollectionIsNotFound`), and the list filters never receive parameters through the router. `Handle` lists with an empty query. `ListView` is still modelled with its parameters, so that what the filters do can be stated.
- A request on a matched path whose method has no branch gets no response at all (`Silent`).
- The id of an item url is `url.split('/')[2]`. That is the text between `/books/` and the next `/`, and it includes any query string.
- On create, the body's own `id` overrides the generated id. On update, the body's `id` and `insertedAt` override the stored ones. Nothing enforces unique ids. The lemmas about reading a book back after create or delete assume a fresh id and unique ids.
- Validation uses JavaScript truthiness for `name`. `readPage > pageCount` is false when either field is absent. `finished` is `pageCount === readPage` on possibly absent values, so two absent fields give `true`.
- PUT looks up the id before it checks the body, so 404 wins over 400.

Two invariants one might expect of the store do not hold. The model follows the code and proves that they fail:

- One might expect an update to recompute `finished` from the merged record. The code computes it from the request body alone (src/server.js:136). `Books.MergeCanDesyncFinished` shows a validated update that leaves `finished` true on a record with `pageCount` 10 and `readPage` 5.
- One might expect `readPage <= pageCount` to always hold. The update check looks only at the body. `Books.MergeCanExceedPageCount` shows a validated update that leaves `readPage` 50 over `pageCount` 10.

Absent page counts do not default to 0: with either field absent, the comparison is simply false.

## Model

| member | source | states |
|---|---|---|
| Text.ToLower | src/server.js:28-30 | lower-casing keeps the length, maps each ASCII upper-case letter to its lower-case letter, and keeps every other character |
| Text.ToLowerIdempotent | src/server.js:28-30 | lower-casing an already lower-cased string changes nothing |
| Text.IncludesItself | src/server.js:30 | every string includes itself |
| Text.Includes | src/server.js:30 | `includes` is true exactly when the needle occurs at some position of the haystack |
| Text.Split | src/server.js:96 | `split` gives at least one part, and no part contains the separator |
| Text.JoinSplit | src/server.js:96 | joining the parts of a split with the separator gives back the original string |
| Text.TakeUntil | src/server.js:96 | the result is a prefix without the separator, followed in the input by the separator or the end |
| Text.SplitHead | src/server.js:96 | the first part of a split is the text before the first separator |
| Router.ItemSegments | src/server.js:95-96 | for a url starting `/books/`, the split has a third part: the text after `/books/` up to the next '/' |
| Router.BookIdOf | src/server.js:96 | the item id is the text after `/books/` up to the next '/' |
| Router.Route | src/server.js:12-176 | OPTIONS, and only OPTIONS, is preflight, whatever the url. GET/POST on exactly `/books` are list/create. GET/PUT/DELETE on a url with prefix `/books/` are read/update/delete, with an id free of '/' that directly follows the prefix. Every other url is not-found. A matched url with another method gets no response. Each outcome is stated as an if-and-only-if; the id clauses are one-way |
| Router.QueryOnCollectionIsNotFound | src/server.js:18-21 | `/books?...` with any method but OPTIONS is routed to not-found, never to the list |
| Books.Truthy | src/server.js:58 | definition of `!bookData.name` negated: present and not the empty string; see CheckInput |
| Books.PagesExceed | src/server.js:66 | definition of `readPage > pageCount`, false when either is absent; see CheckInput |
| Books.CheckInput | src/server.js:58-73 | the input passes exactly when the name is truthy and readPage does not exceed pageCount (both present). A falsy name is reported before the page check |
| Books.NewBook | src/server.js:75-81 | the created record has a non-empty name, `finished` equal to `pageCount == readPage`, both timestamps equal to now, and the generated id when the body has none |
| Books.NewBookRoundTrip | src/server.js:75-81 | the created record carries exactly the body's fields, plus the chosen id and the creation time |
| Books.Merge | src/server.js:133-138 | a field absent from the body keeps its old value and a present one replaces it (`id` and `insertedAt` included). `finished` follows the body's page fields. `updatedAt` is now |
| Books.MergeIdempotent | src/server.js:133-138 | applying the same update twice gives the same record as applying it once |
| Books.MergeWithOwnFields | src/server.js:133-138 | updating a consistent record with its own fields and timestamp leaves it unchanged |
| Books.MergeCanDesyncFinished | src/server.js:136 | some validated update leaves a record whose `finished` disagrees with its own page fields |
| Books.MergeCanExceedPageCount | src/server.js:124-138 | some validated update leaves a record whose readPage exceeds its pageCount |
| Books.FindIndex | src/server.js:108 | `findIndex` gives -1 exactly when no book has the id, else the first index holding it |
| Books.Find | src/server.js:99 | `find` gives a stored book with the id, or none exactly when no book has the id |
| Books.FindAtFindIndex | src/server.js:99-108 | `find` returns the book at the index `findIndex` reports, so read, update and delete address the same record |
| Books.FindAppend | src/server.js:82-99 | after a push, `find` gives the earlier match if there is one, else the pushed book if it has the id |
| Books.RemoveAt | src/server.js:155 | `splice(i, 1)` shortens the store by one, removes exactly the i-th book (as a multiset), and keeps the others in order, shifted down past i |
| Books.CreateThenFind | src/server.js:75-105 | after a create with a fresh generated id, reading that id returns the new record, and unique ids stay unique |
| Books.DeleteThenFind | src/server.js:153-155 | after deleting an id from a store with unique ids, no book has that id and ids stay unique |
| Books.Filter | src/server.js:29-41 | `filter` keeps only accepted elements of the input, keeps every accepted element, and is no longer than the input |
| Books.FilterAppend | src/server.js:29-41 | filtering keeps store order: it distributes over concatenation |
| Books.FilterFusion | src/server.js:25-42 | two filters in a row equal one filter by their conjunction |
| Books.Summarize | src/server.js:46 | definition of the `{id, name, publisher}` view of one book; see Project |
| Books.Project | src/server.js:46 | the projection maps each book, position by position, to its `{id, name, publisher}` |
| Books.Param | src/server.js:21-23 | definition of `urlParams.get(key)`, absent as `None`; see ListViewIsConjunction |
| Books.NameFilter | src/server.js:21 | definition of `urlParams.get('name') \|\| ''`; see ByNameIsFilter |
| Books.ByName | src/server.js:27-32 | the name step keeps only books of its input that pass the name filter, keeps every one that does, and is no longer than its input |
| Books.ByReading | src/server.js:34-37 | the reading step keeps only books that pass the reading filter, keeps every one that does, and is no longer than its input |
| Books.ByFinished | src/server.js:39-42 | the finished step keeps only books that pass the finished filter, keeps every one that does, and is no longer than its input |
| Books.ListView | src/server.js:25-46 | the list holds a summary of every stored book that passes all active filters, and every entry is the summary of such a book; see ListViewIsConjunction for order |
| Books.ByNameIsFilter | src/server.js:27-32 | the name step filters by "filter empty, or the lower-cased name includes the lower-cased filter" |
| Books.ByReadingIsFilter | src/server.js:34-37 | the reading step filters by "parameter absent, or `reading` equals (parameter is '1')" |
| Books.ByFinishedIsFilter | src/server.js:39-42 | the finished step filters by "parameter absent, or `finished` equals (parameter is '1')" |
| Books.ListViewIsConjunction | src/server.js:25-46 | the list is the projection, in store order, of exactly the books that pass all active filters (AND) |
| Books.ListViewWithoutFilters | src/server.js:20-25 | with no query parameters every book is listed, in store order |
| Books.CaseVariantNamePasses | src/server.js:27-31 | a book whose name differs from the name filter only in ASCII letter case passes the name filter |
| Books.SameLowerSameNameOk | src/server.js:27-31 | two name filters with the same lower-case form accept exactly the same books |
| Books.NameFilterIgnoresCase | src/server.js:27-31 | two name filters with the same lower-case form list the same books |
| Server.BookStore.constructor | src/server.js:4 | the store starts empty |
| Server.BookStore.Create | src/server.js:51-93 | a falsy name gives 400 with no change, checked first. readPage over pageCount gives 400 with no change. Otherwise exactly the new record is appended, earlier records are untouched, and the reply is 201 with its id. Names stay non-empty |
| Server.BookStore.List | src/server.js:19-50 | answers 200 with the list view of the store, and changes nothing |
| Server.BookStore.Read | src/server.js:98-106 | answers 200 with the first book having the id, or 404 when none has it, and changes nothing |
| Server.BookStore.Update | src/server.js:107-151 | an unknown id gives 404 with no change, whatever the body. A failed check gives 400 with no change. Otherwise only the first matching slot is replaced, by the merge, and the length is kept |
| Server.BookStore.Delete | src/server.js:152-171 | an unknown id gives 404 with no change. Otherwise exactly the first matching record is spliced out, keeping the order of the rest |
| Server.BookStore.Handle | src/server.js:6-177 | the callback answers as its route says, with the full reply: the found book or 404, the created id or the name/page 400 (name first), the update and delete 404/400/200 messages. Only create, update and delete change the store, by at most one record. The list is unfiltered. On PUT, 404 wins over 400 |
| Server.CreateThenRead | src/server.js:51-106 | a create with a fresh id answers 201 with that id, and a read of it returns a record holding exactly the body's fields plus id and timestamps |
| Server.DeleteThenRead | src/server.js:152-171 | on a store with unique ids, deleting an existing id shrinks the store by one, and a read of that id then answers 404 |
| Server.FinishedFilterScenario | src/server.js:39-46 | creating A (100/100) and B (100/50), then listing with `finished=1`, lists only A |

## Left out

- HTTP server creation, the listen port, the startup log line, and all response headers (CORS and content type): I/O and output plumbing. A response is modelled as a status code and a body kind.
- Streaming the request body (`req.on('data'/'end')`) and `JSON.parse`/`JSON.stringify`, including the crash on malformed JSON: foreign wire encoding. The parsed body is an input record.
- `nanoid()` and the clock: external generators. Their values are parameters (`freshId`, `now`).
- `URLSearchParams` decoding: the query is a map with one value per key. Repeated keys and percent-decoding are not modelled.
- Text.ToLower: Unicode case mapping is not modelled; only ASCII letters are lower-cased.
- JSON bodies with keys other than the book's fields, JSON `null` values, and fields of another JSON type (a numeric `name`, string page counts, fractional numbers) are not modelled. The input record has one optional value of a fixed type per field.
- `finished` and `updatedAt` sent in a body are not modelled: the code always overwrites both.
- The interleaving of concurrent requests is not modelled. Each callback runs as one atomic step. In the code, PUT finds `bookIndex` (src/server.js:108) before the body arrives and writes the slot only after it (src/server.js:133). A DELETE handled in between can shift the array, so the merge then lands on a different book, or is written at `books.length` over an empty previous record. The model does not capture this.
