# Book store of the GraphQL learning server, in Dafny

The server keeps two in-memory collections, seeded at start-up: authors
`{id, name}` and books `{id, name, authorId}`. Its GraphQL resolvers read
them by linear search. `book(id)` and `author(id)` return the first record
with that id. `books` and `authors` return the whole collection.
`Book.author` follows a book's `authorId`. `Author.books` filters the
books. The one mutation, `addBook`, appends a book whose id is the current
number of books plus one.

This project models that store and proves what its operations guarantee.

- `collections.dfy`, module `Collections`: `Option`, and `Find` and
  `Filter`, the array searches the resolvers use (JavaScript's
  `Array.prototype.find` and `Array.prototype.filter`). Lemmas relate the
  two to each other and to concatenation.
- `bookstore.dfy`, module `BookStore`:
  - the `Author` and `Book` records and the seed data;
  - the resolvers as functions over the current collections;
  - the id-allocation invariant (`SequentialIds`: the book at position i
    has id i + 1);
  - the `Store` class, whose `authors` and `books` fields are the
    process-wide arrays. Its `AddBook` method is the mutation. Its
    `Books()` and `Authors()` functions are the `books` and `authors`
    queries, which return the current sequences as they are.

The query arguments `id` are nullable GraphQL integers, so the resolvers
take an `Option<int>`. An absent id equals no stored id, so it finds
nothing. JavaScript's `undefined` result of a failed `find` is `None`.

## Model

| member | source | states |
|---|---|---|
| Collections.Find | server.js:41 | returns nothing exactly when no element satisfies the predicate; otherwise returns the element at the first index that satisfies it |
| Collections.Filter | server.js:56 | keeps exactly the elements that satisfy the predicate, each as many times as it occurs in the input, and none that fail it |
| Collections.FilterAppend | server.js:56 | filtering a concatenation is the concatenation of the filtered parts, so kept elements stay in their original order |
| Collections.FindIsHeadOfFilter | server.js:72 | find returns the first element that filter keeps, and nothing when filter keeps nothing |
| Collections.FindAppend | server.js:72 | a search through `a + b` returns a's match when a has one, and b's otherwise; appending never changes an earlier match |
| Collections.FilterAtMostOne | server.js:56 | when no two positions both satisfy the predicate, filtering yields at most one element |
| BookStore.BookById | server.js:66-73 | `book(id)` returns a book with that id at the first index holding it, and nothing exactly when the id is absent or no book has it |
| BookStore.AuthorById | server.js:79-86 | `author(id)` returns an author with that id at the first index holding it, and nothing exactly when the id is absent or no author has it |
| BookStore.AuthorOfBook | server.js:38-43 | `Book.author` returns the first author whose id is the book's `authorId`; a dangling `authorId` yields nothing, never an error |
| BookStore.BooksOfAuthor | server.js:53-58 | `Author.books` as written: exactly the books whose own `id` equals the author's id, with their multiplicities |
| BookStore.BooksWrittenBy | server.js:53-58 | `Author.books` as intended: exactly the books whose `authorId` equals the author's id, with their multiplicities |
| BookStore.SeedAuthors | server.js:14-18 | three seed authors, each with id equal to its one-based position |
| BookStore.SeedBooks | server.js:20-29 | eight seed books, each with id equal to its one-based position and an `authorId` naming one of the seed authors |
| BookStore.BooksOfAuthorAppend | server.js:55-57 | `Author.books` as written keeps stored order: its result on `a + b` is its result on a followed by its result on b |
| BookStore.BooksWrittenByAppend | server.js:55-57 | the corrected `Author.books` keeps stored order the same way |
| BookStore.BooksWrittenByPrefix | server.js:55-57 | when an author's books are exactly the first k stored books, the corrected `Author.books` returns that prefix, in order |
| BookStore.SeedIdsSequential | server.js:20-29 | each seed book's id is its one-based position |
| BookStore.SequentialIdsAreUnique | server.js:107 | ids allocated by position never repeat |
| BookStore.AppendKeepsSequentialIds | server.js:107-108 | appending a book with id `length + 1` keeps every id equal to its position |
| BookStore.BookByIdSequential | server.js:72 | while ids are positions, `book(k)` is the k-th book for 1 <= k <= length, and nothing for any other k |
| BookStore.SeedBookLookup | server.js:20-29 | on the seed data, `book(k)` is the seed book with id k for k in 1..8, and nothing otherwise |
| BookStore.SeedAuthorLookup | server.js:14-18 | on the seed data, `author(k)` is the seed author with id k for k in 1..3, and nothing otherwise |
| BookStore.SeedBooksHaveAuthors | server.js:14-29 | every seed book's `authorId` resolves to the seed author with that id |
| BookStore.BooksOfAuthorAtMostOne | server.js:56 | while book ids are unique, `Author.books` as written returns at most one book |
| BookStore.BooksOfAuthorSequential | server.js:56 | while ids are positions, `Author.books` as written returns exactly the book at position `author.id`, whoever wrote it, and nothing when there is no such position |
| BookStore.SeedAuthorBooksAsWritten | server.js:56 | on the seed data, `Author.books` as written gives author 1 only the book with id 1 |
| BookStore.SeedAuthorBooksIntended | server.js:56 | on the seed data, the corrected resolver gives author 1 the three books with `authorId` 1, in order |
| BookStore.Store.constructor | server.js:14-29 | the store starts with exactly the seed authors and seed books, and is valid: authors are the seed authors, books begin with the seed books, ids are positions |
| BookStore.Store.Books | server.js:77 | `books` returns the current sequence; in a valid store it begins with the seed books and every id is its position. With `AddBook`'s contract, it reflects every append in order |
| BookStore.Store.Authors | server.js:90 | `authors` returns the current sequence, which in a valid store is exactly the seed authors |
| BookStore.Store.AddBook | server.js:106-110 | the new book has id `old length + 1` and the given name and `authorId`; `books` becomes the old books followed by it, and every earlier book keeps its index; `authors` is unchanged; validity is kept; on a valid store, `book(id)` with the new id then returns the new book |
| BookStore.AddTwoBooks | server.js:106-110 | two successive `addBook` calls return consecutive ids; the first book carries the first call's name and `authorId`, the second the second's, and they are appended in call order |

## Left out

- HTTP plumbing is not modelled: the Express app, the `/graphql` route, GraphiQL, and listening on port 5000 with its start-up log (server.js:119-124). It is I/O.
- GraphQL schema construction is not modelled: object types, lazy field thunks, `GraphQLNonNull`/`GraphQLList` typing, and the schema itself (server.js:31-37, 47-54, 62-71, 95-105, 115-118). These are calls into the GraphQL library. Query parsing, argument validation and non-null enforcement are that library's work, not the resolvers'.
- Description strings and type names are not modelled. They are metadata.
- Integers are unbounded. GraphQL's `Int` is a signed 32-bit integer, so a book id above 2147483647 could not be serialised. That would take over two billion `addBook` calls, and the check belongs to the library.
- Aliasing is not modelled. The `books` and `authors` resolvers return the live arrays, which the library serialises at once. `Store.Books()` and `Store.Authors()` return the sequences as values.
- Concurrency is not modelled. Each request's resolvers run to completion without interleaving.

## Findings

| source | as written | input that shows it | evidently intended | confidence | as-written member | corrected member |
|---|---|---|---|---|---|---|
| server.js:56 | `Author.books` keeps the books whose `id` equals the author's id | `author(id: 1) { books }` on the seed data yields only "Harry Potter and the Chamber of Secrets" | keep the books whose `authorId` equals the author's id: the three Harry Potter books | high; not executed | BookStore.SeedAuthorBooksAsWritten | BookStore.SeedAuthorBooksIntended |

`BookStore.BooksOfAuthor` is the resolver as written. `BookStore.BooksWrittenBy` is the corrected one. `BooksOfAuthorSequential` shows the general effect of the defect: while ids are positions, the as-written resolver returns the single book whose position matches the author's id.
