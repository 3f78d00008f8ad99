/** The in-memory author and book store of the GraphQL server: the two seeded
    collections, the resolvers that read them and the one mutation that
    appends to the books. */
module BookStore {
  import opened Collections

  /** An author record `{id, name}`. */
  datatype Author = Author(id: int, name: string)

  /** A book record `{id, name, authorId}`; `authorId` is a soft reference to
      an author that nothing checks. */
  datatype Book = Book(id: int, name: string, authorId: int)

  /** The authors the server starts with; their ids are their one-based
      positions. */
  function SeedAuthors(): (r: seq<Author>)
    ensures |r| == 3
    ensures forall i :: 0 <= i < |r| ==> r[i].id == i + 1
  {
    [ Author(1, "J. K. Rowling"),
      Author(2, "J. R. R. Tolkien"),
      Author(3, "Brent Weeks") ]
  }

  /** The books the server starts with: ids equal to their positions, and
      every authorId the id of a seed author. */
  function SeedBooks(): (r: seq<Book>)
    ensures |r| == 8
    ensures forall i :: 0 <= i < |r| ==> r[i].id == i + 1 && 1 <= r[i].authorId <= |SeedAuthors()|
  {
    [ Book(1, "Harry Potter and the Chamber of Secrets", 1),
      Book(2, "Harry Potter and the Prisoner of Azkaban", 1),
      Book(3, "Harry Potter and the Goblet of Fire", 1),
      Book(4, "The Fellowship of the Ring", 2),
      Book(5, "The Two Towers", 2),
      Book(6, "The Return of the King", 2),
      Book(7, "The Way of Shadows", 3),
      Book(8, "Beyond the Shadows", 3) ]
  }

  // ---------------------------------------------------------------------------
  // Resolvers. Each takes the current collections as arguments; an `id`
  // argument is a nullable GraphQL integer, so it may be absent (None), and
  // an absent id equals no stored id.
  // ---------------------------------------------------------------------------

  /** Query.book: the first book whose id equals the argument, or nothing. */
  function BookById(books: seq<Book>, id: Option<int>): (r: Option<Book>)
    ensures r.Some? ==> id.Some? && r.value.id == id.value
    ensures r.Some? ==> exists i :: 0 <= i < |books| && books[i] == r.value &&
                                     forall j :: 0 <= j < i ==> books[j].id != r.value.id
    ensures r.None? <==> id.None? || forall i :: 0 <= i < |books| ==> books[i].id != id.value
  {
    match id
    case None => None
    case Some(k) => Find(books, (b: Book) => b.id == k)
  }

  /** Query.author: the first author whose id equals the argument, or nothing. */
  function AuthorById(authors: seq<Author>, id: Option<int>): (r: Option<Author>)
    ensures r.Some? ==> id.Some? && r.value.id == id.value
    ensures r.Some? ==> exists i :: 0 <= i < |authors| && authors[i] == r.value &&
                                     forall j :: 0 <= j < i ==> authors[j].id != r.value.id
    ensures r.None? <==> id.None? || forall i :: 0 <= i < |authors| ==> authors[i].id != id.value
  {
    match id
    case None => None
    case Some(k) => Find(authors, (a: Author) => a.id == k)
  }

  /** Book.author: the first author whose id is the book's authorId; a
      dangling authorId gives nothing rather than an error. */
  function AuthorOfBook(authors: seq<Author>, book: Book): (r: Option<Author>)
    ensures r.Some? ==> r.value.id == book.authorId
    ensures r.Some? ==> exists i :: 0 <= i < |authors| && authors[i] == r.value &&
                                     forall j :: 0 <= j < i ==> authors[j].id != book.authorId
    ensures r.None? <==> forall i :: 0 <= i < |authors| ==> authors[i].id != book.authorId
  {
    Find(authors, (a: Author) => a.id == book.authorId)
  }

  /** Author.books as the server has it: the books whose own id (not their
      authorId) equals the author's id, in stored order. */
  function BooksOfAuthor(books: seq<Book>, author: Author): (r: seq<Book>)
    ensures forall b :: b in r <==> b in books && b.id == author.id
    ensures forall b :: multiset(r)[b] == if b.id == author.id then multiset(books)[b] else 0
  {
    Filter(books, (b: Book) => b.id == author.id)
  }

  /** Author.books as evidently intended: the books whose authorId is the
      author's id, in stored order. */
  function BooksWrittenBy(books: seq<Book>, author: Author): (r: seq<Book>)
    ensures forall b :: b in r <==> b in books && b.authorId == author.id
    ensures forall b :: multiset(r)[b] == if b.authorId == author.id then multiset(books)[b] else 0
  {
    Filter(books, (b: Book) => b.authorId == author.id)
  }

  // ---------------------------------------------------------------------------
  // Id allocation
  // ---------------------------------------------------------------------------

  /** Every book's id is its one-based position, as in the seed data and as
      addBook allocates. */
  predicate SequentialIds(books: seq<Book>)
  {
    forall i :: 0 <= i < |books| ==> books[i].id == i + 1
  }

  /** No two stored books share an id. */
  predicate UniqueIds(books: seq<Book>)
  {
    forall i, j :: 0 <= i < j < |books| ==> books[i].id != books[j].id
  }

  lemma SeedIdsSequential()
    ensures SequentialIds(SeedBooks())
  {
  }

  lemma SequentialIdsAreUnique(books: seq<Book>)
    requires SequentialIds(books)
    ensures UniqueIds(books)
  {
  }

  /** Appending a book whose id is the new length keeps ids sequential. */
  lemma AppendKeepsSequentialIds(books: seq<Book>, book: Book)
    requires SequentialIds(books)
    requires book.id == |books| + 1
    ensures SequentialIds(books + [book])
  {
  }

  /** When ids are sequential, Query.book with id k is the k-th book, and
      nothing outside 1..|books|. */
  lemma BookByIdSequential(books: seq<Book>, k: int)
    requires SequentialIds(books)
    ensures BookById(books, Some(k)) == if 1 <= k <= |books| then Some(books[k - 1]) else None
  {
  }

  /** The seed books answer Query.book with the book of that id. */
  lemma SeedBookLookup(k: int)
    ensures BookById(SeedBooks(), Some(k)) == if 1 <= k <= 8 then Some(SeedBooks()[k - 1]) else None
  {
  }

  /** The seed authors answer Query.author with the author of that id. */
  lemma SeedAuthorLookup(k: int)
    ensures AuthorById(SeedAuthors(), Some(k)) == if 1 <= k <= 3 then Some(SeedAuthors()[k - 1]) else None
  {
  }

  /** Every seed book's authorId resolves, through Book.author, to the seed
      author with that id. */
  lemma SeedBooksHaveAuthors()
    ensures forall i :: 0 <= i < |SeedBooks()| ==>
              AuthorOfBook(SeedAuthors(), SeedBooks()[i]) == Some(SeedAuthors()[SeedBooks()[i].authorId - 1])
  {
  }

  /** While book ids are unique, Author.books as written yields at most one book. */
  lemma BooksOfAuthorAtMostOne(books: seq<Book>, author: Author)
    requires UniqueIds(books)
    ensures |BooksOfAuthor(books, author)| <= 1
  {
    FilterAtMostOne(books, (b: Book) => b.id == author.id);
  }

  /** While ids are sequential, Author.books as written yields exactly the
      book at position author.id, whoever wrote it. */
  lemma BooksOfAuthorSequential(books: seq<Book>, author: Author)
    requires SequentialIds(books)
    ensures BooksOfAuthor(books, author) ==
              if 1 <= author.id <= |books| then [books[author.id - 1]] else []
  {
    var p := (b: Book) => b.id == author.id;
    if 1 <= author.id <= |books| {
      var k := author.id - 1;
      assert books == books[..k] + [books[k]] + books[k + 1..];
      FilterAppend(books[..k] + [books[k]], books[k + 1..], p);
      FilterAppend(books[..k], [books[k]], p);
      FilterNone(books[..k], p);
      FilterNone(books[k + 1..], p);
    } else {
      FilterNone(books, p);
    }
  }

  /** Author.books as written keeps the stored order: the result for a
      concatenation is the results for its parts, concatenated. */
  lemma BooksOfAuthorAppend(a: seq<Book>, b: seq<Book>, author: Author)
    ensures BooksOfAuthor(a + b, author) == BooksOfAuthor(a, author) + BooksOfAuthor(b, author)
  {
    FilterAppend(a, b, (x: Book) => x.id == author.id);
  }

  /** The corrected Author.books keeps the stored order the same way. */
  lemma BooksWrittenByAppend(a: seq<Book>, b: seq<Book>, author: Author)
    ensures BooksWrittenBy(a + b, author) == BooksWrittenBy(a, author) + BooksWrittenBy(b, author)
  {
    FilterAppend(a, b, (x: Book) => x.authorId == author.id);
  }

  /** On the seed data, Author.books as written gives J. K. Rowling only the
      book with id 1, while the three books with authorId 1 are the first three. */
  lemma SeedAuthorBooksAsWritten()
    ensures BooksOfAuthor(SeedBooks(), SeedAuthors()[0]) == [SeedBooks()[0]]
  {
    SeedIdsSequential();
    BooksOfAuthorSequential(SeedBooks(), SeedAuthors()[0]);
  }

  /** When an author's books are exactly the first k stored books, the
      corrected Author.books returns that prefix. */
  lemma BooksWrittenByPrefix(books: seq<Book>, author: Author, k: nat)
    requires k <= |books|
    requires forall i :: 0 <= i < k ==> books[i].authorId == author.id
    requires forall i :: k <= i < |books| ==> books[i].authorId != author.id
    ensures BooksWrittenBy(books, author) == books[..k]
  {
    var p := (b: Book) => b.authorId == author.id;
    var front, back := books[..k], books[k..];
    assert books == front + back;
    BooksWrittenByAppend(front, back, author);
    FilterAll(front, p);
    FilterNone(back, p);
  }

  /** ... and the corrected resolver gives her the three books she wrote. */
  lemma SeedAuthorBooksIntended()
    ensures BooksWrittenBy(SeedBooks(), SeedAuthors()[0]) == SeedBooks()[..3]
  {
    var books, author := SeedBooks(), SeedAuthors()[0];
    assert forall i :: 0 <= i < 3 ==> books[i].authorId == author.id;
    assert forall i :: 3 <= i < |books| ==> books[i].authorId != author.id;
    BooksWrittenByPrefix(books, author, 3);
  }

  // ---------------------------------------------------------------------------
  // The store
  // ---------------------------------------------------------------------------

  /** The process-wide collections: authors are never changed after seeding,
      books only grow by addBook. */
  class Store {
    var authors: seq<Author>
    var books: seq<Book>

    /** What every reachable store satisfies: the authors are the seed
        authors, the books begin with the seed books, and book ids are the
        one-based positions. The constructor establishes it and AddBook
        keeps it. */
    ghost predicate Valid()
      reads this
    {
      authors == SeedAuthors() && SeedBooks() <= books && SequentialIds(books)
    }

    /** The server's start-up state: the seeded collections. */
    constructor ()
      ensures authors == SeedAuthors() && books == SeedBooks()
      ensures Valid()
    {
      authors := SeedAuthors();
      books := SeedBooks();
      SeedIdsSequential();
    }

    /** Query.books: the current books, which in a valid store start with
        the seed books and carry their positions as ids. */
    function Books(): (r: seq<Book>)
      reads this
      ensures Valid() ==> SeedBooks() <= r && SequentialIds(r)
    {
      books
    }

    /** Query.authors: the current authors, which in a valid store are the
        seed authors. */
    function Authors(): (r: seq<Author>)
      reads this
      ensures Valid() ==> r == SeedAuthors()
    {
      authors
    }

    /** Mutation addBook: appends a book whose id is the current number of
        books plus one and returns it; the authorId is not checked. */
    method AddBook(name: string, authorId: int) returns (book: Book)
      modifies this
      ensures book.id == |old(books)| + 1 && book.name == name && book.authorId == authorId
      ensures Books() == old(Books()) + [book]
      ensures Authors() == old(Authors())
      ensures old(Valid()) ==> Valid()
      ensures old(Valid()) ==> BookById(Books(), Some(book.id)) == Some(book)
    {
      book := Book(|books| + 1, name, authorId);
      if SequentialIds(books) {
        AppendKeepsSequentialIds(books, book);
        BookByIdSequential(books + [book], book.id);
      }
      books := books + [book];
    }
  }

  /** Two addBook mutations in a row: the books receive consecutive ids and
      are appended in call order. */
  method AddTwoBooks(store: Store, name1: string, authorId1: int, name2: string, authorId2: int)
    returns (first: Book, second: Book)
    modifies store
    ensures first.id == |old(store.books)| + 1 && second.id == first.id + 1
    ensures first.name == name1 && first.authorId == authorId1
    ensures second.name == name2 && second.authorId == authorId2
    ensures store.books == old(store.books) + [first, second]
    ensures store.authors == old(store.authors)
    ensures old(store.Valid()) ==> store.Valid()
  {
    first := store.AddBook(name1, authorId1);
    second := store.AddBook(name2, authorId2);
  }
}
