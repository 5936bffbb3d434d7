/** book_oop.py: a library kept in one object's `books` dict, keyed by 5-digit ids. */
module BookOop {
  import opened Common
  import opened Text
  import opened PyDict
  import opened Ids
  import opened Library

  /** The copies of a book: `register_book` stores the digits as typed, while an edit
      stores the number they spell. */
  datatype Copies = Typed(digits: string) | Count(n: int)

  /** `edit_book`'s new record: an empty answer keeps the old text, the copies are
      replaced only by a positive digit string and the shelf only by a choice in 1..3. */
  function EditRecord(b: Book<Copies>, title: string, author: string, isbn: string, genre: string,
                      copies: string, choice: string): Book<Copies>
  {
    Book(if title != "" then title else b.title,
         if author != "" then author else b.author,
         if isbn != "" then isbn else b.isbn,
         if genre != "" then genre else b.genre,
         if PositiveCount(copies) then Count(CountOf(copies)) else b.copies,
         if ShelfChoice(choice).Some? then ShelfChoice(choice).value else b.location)
  }

  /** An edit where every answer is left empty or invalid rewrites the book unchanged,
      and repeating an edit changes nothing more. */
  lemma EditKeepsBook(b: Book<Copies>, title: string, author: string, isbn: string, genre: string,
                      copies: string, choice: string)
    ensures !PositiveCount(copies) && ShelfChoice(choice).None? ==> EditRecord(b, "", "", "", "", copies, choice) == b
    ensures var e := EditRecord(b, title, author, isbn, genre, copies, choice);
            EditRecord(e, title, author, isbn, genre, copies, choice) == e
  {
  }

  datatype LookupError = EmptyId | UnknownId
  datatype BorrowOutcome = Borrowed | NoCopies | Refused(error: LookupError) | CopiesNotNumber

  class BookManagementSystem {
    var books: Dict<string, Book<Copies>>

    ghost predicate Valid()
      reads this
    {
      books.Valid()
    }

    constructor ()
      ensures Valid() && books == Empty()
    {
      books := Empty();
    }

    /** `generate_id()`: a 5-digit number, as text, that is not yet a key. */
    method GenerateId() returns (id: string)
      requires |books.items| <= 89999
      ensures id !in books.items
      ensures exists n: nat :: 10000 <= n <= 99999 && id == NatToString(n)
    {
      var n;
      id, n := FreshId("", books.items.Keys, 10000, 99999);
      assert id == NatToString(n);
    }

    /** `register_book()`: refuses copies that are not a positive digit string, then a
        shelf choice outside 1..3; otherwise adds one book under a fresh id, with the
        copies stored as the digit text itself. */
    method RegisterBook(title: string, author: string, isbn: string, genre: string,
                        copies: string, choice: string) returns (r: Result<string, RegisterError>)
      requires Valid() && |books.items| <= 89999
      modifies this
      ensures Valid()
      ensures r.Err? <==> CheckRegistration(copies, choice).Err?
      ensures r.Err? ==> r.error == CheckRegistration(copies, choice).error && books == old(books)
      ensures r.Ok? ==>
        r.value !in old(books.items) &&
        books.keys == old(books.keys) + [r.value] &&
        books.items == old(books.items)[r.value := Book(title, author, isbn, genre, Typed(copies),
                                                         ShelfChoice(choice).value)]
    {
      var checked := CheckRegistration(copies, choice);
      if checked.Err? {
        return Err(checked.error);
      }
      var id := GenerateId();
      books := books.Put(id, Book(title, author, isbn, genre, Typed(copies), checked.value.1));
      return Ok(id);
    }

    /** `edit_book()`: nothing for an empty or unknown id; otherwise the book is
        rewritten by `EditRecord` in its place, and no other book changes. */
    method EditBook(id: string, title: string, author: string, isbn: string, genre: string,
                    copies: string, choice: string) returns (r: Outcome<LookupError>)
      requires Valid()
      modifies this
      ensures Valid()
      ensures r == if id == "" then Fail(EmptyId) else if id !in old(books.items) then Fail(UnknownId) else Pass
      ensures r.Fail? ==> books == old(books)
      ensures r.Pass? ==>
        books.keys == old(books.keys) &&
        books.items == old(books.items)[id := EditRecord(old(books.items)[id], title, author, isbn, genre, copies, choice)]
    {
      if id == "" {
        return Fail(EmptyId);
      }
      if id !in books.items {
        return Fail(UnknownId);
      }
      var book := books.items[id];
      var newTitle := if title != "" then title else book.title;
      var newAuthor := if author != "" then author else book.author;
      var newIsbn := if isbn != "" then isbn else book.isbn;
      var newGenre := if genre != "" then genre else book.genre;
      var newCopies := book.copies;
      if PositiveCount(copies) {
        newCopies := Count(CountOf(copies));
      }
      var newLocation := book.location;
      var shelf := ShelfChoice(choice);
      if shelf.Some? {
        newLocation := shelf.value;
      }
      books := books.Put(id, Book(newTitle, newAuthor, newIsbn, newGenre, newCopies, newLocation));
      return Pass;
    }

    /** `delete_book()`: removes exactly the given id, or nothing for an empty or
        unknown one. */
    method DeleteBook(id: string) returns (r: Outcome<LookupError>)
      requires Valid()
      modifies this
      ensures Valid()
      ensures r == if id == "" then Fail(EmptyId) else if id !in old(books.items) then Fail(UnknownId) else Pass
      ensures books == if r.Pass? then old(books).Remove(id) else old(books)
    {
      if id == "" {
        return Fail(EmptyId);
      }
      if id !in books.items {
        return Fail(UnknownId);
      }
      books := books.Remove(id);
      return Pass;
    }

    /** `search_book()`: an empty term is refused; otherwise the books whose lower-cased
        title or author contains the lower-cased term, in dict order (see
        `Library.MatchingMembership`). */
    method SearchBook(term: string) returns (r: Option<seq<(string, Book<Copies>)>>)
      requires Valid()
      ensures r.None? <==> term == ""
      ensures r.Some? ==> r.value == Matching(books.keys, books.items, Lower(term))
    {
      var needle := Lower(term);
      if needle == "" {
        return None;
      }
      var matches := [];
      var i := 0;
      while i < |books.keys|
        invariant 0 <= i <= |books.keys|
        invariant matches == Matching(books.keys[..i], books.items, needle)
      {
        var id := books.keys[i];
        var book := books.items[id];
        if Contains(Lower(book.title), needle) || Contains(Lower(book.author), needle) {
          matches := matches + [(id, book)];
        }
        assert books.keys[..i + 1][..i] == books.keys[..i];
        i := i + 1;
      }
      assert books.keys[..i] == books.keys;
      return Some(matches);
    }

    /** `borrow_book()`: nothing for an empty or unknown id. A book registered here
        still holds its copies as text, and `copies > 0` on text raises `TypeError`;
        a counted book loses one copy when it has any, and is otherwise left alone. */
    method BorrowBook(id: string) returns (r: BorrowOutcome)
      requires Valid()
      modifies this
      ensures Valid()
      ensures id == "" ==> r == Refused(EmptyId)
      ensures id != "" && id !in old(books.items) ==> r == Refused(UnknownId)
      ensures id != "" && id in old(books.items) ==>
        r == match old(books.items)[id].copies
             case Typed(_) => CopiesNotNumber
             case Count(n) => if n > 0 then Borrowed else NoCopies
      ensures books == if r == Borrowed then old(books).Put(id, old(books.items)[id].(copies := Count(old(books.items)[id].copies.n - 1)))
                       else old(books)
    {
      if id == "" {
        return Refused(EmptyId);
      }
      if id !in books.items {
        return Refused(UnknownId);
      }
      var book := books.items[id];
      if book.copies.Typed? {
        return CopiesNotNumber;
      }
      if book.copies.n > 0 {
        books := books.Put(id, book.(copies := Count(book.copies.n - 1)));
        return Borrowed;
      }
      return NoCopies;
    }
  }
}
