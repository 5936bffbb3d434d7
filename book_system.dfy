/** book_system.py: the library as a `books` dict that the nested functions of
    `book_system()` share; here the dict is the field of one object and each nested
    function a method on it. */
module BookSystem {
  import opened Common
  import opened Text
  import opened PyDict
  import opened Ids
  import opened Library

  /** Search hits tagged with their 1-based position among all books visited, matching
      or not (`enumerate(books.values(), start=1)`). */
  function Tagged(ids: seq<string>, m: map<string, Book<int>>, term: string): seq<(int, Book<int>)>
    requires forall k :: k in ids ==> k in m
  {
    if ids == [] then []
    else
      var last := ids[|ids| - 1];
      Tagged(ids[..|ids| - 1], m, term) + (if Mentions(m[last], term) then [(|ids|, m[last])] else [])
  }

  /** A tagged hit is exactly a position among all books whose book mentions the term. */
  lemma {:induction false} TaggedMembership(ids: seq<string>, m: map<string, Book<int>>, term: string,
                                            hit: (int, Book<int>))
    requires forall k :: k in ids ==> k in m
    ensures hit in Tagged(ids, m, term) <==>
            1 <= hit.0 <= |ids| && hit.1 == m[ids[hit.0 - 1]] && Mentions(hit.1, term)
  {
    if ids != [] {
      var init := ids[..|ids| - 1];
      TaggedMembership(init, m, term, hit);
      if 1 <= hit.0 < |ids| {
        assert ids[hit.0 - 1] == init[hit.0 - 1];
      }
    }
  }

  /** The tags come out strictly increasing and never exceed the number of books, so
      they count all books rather than the hits. */
  lemma {:induction false} TaggedIncreasing(ids: seq<string>, m: map<string, Book<int>>, term: string)
    requires forall k :: k in ids ==> k in m
    ensures forall i :: 0 <= i < |Tagged(ids, m, term)| ==> 1 <= Tagged(ids, m, term)[i].0 <= |ids|
    ensures forall i, j :: 0 <= i < j < |Tagged(ids, m, term)| ==> Tagged(ids, m, term)[i].0 < Tagged(ids, m, term)[j].0
  {
    if ids != [] {
      var init := ids[..|ids| - 1];
      TaggedIncreasing(init, m, term);
      var last := ids[|ids| - 1];
      var front := Tagged(init, m, term);
      var tail := if Mentions(m[last], term) then [(|ids|, m[last])] else [];
      var r := Tagged(ids, m, term);
      assert r == front + tail;
      forall i | 0 <= i < |r|
        ensures 1 <= r[i].0 <= |ids| && (i < |front| ==> r[i].0 < |ids|)
      {
        if i < |front| {
          assert r[i] == front[i];
        } else {
          assert r[i] == tail[0];
        }
      }
    }
  }

  datatype EditOutcome = EmptyId | UnknownId | Written | NotWritten
  datatype BorrowOutcome = Borrowed | NoCopies | NoSuchBook

  class BookStore {
    var books: Dict<string, Book<int>>

    ghost predicate Valid()
      reads this
    {
      books.Valid()
    }

    constructor ()
      ensures Valid() && books == Empty()
    {
      books := Empty();
    }

    /** `generate_book_id()`: a 5-digit number, as text, that is not yet a key. */
    method GenerateBookId() returns (id: string)
      requires |books.items| <= 89999
      ensures id !in books.items
      ensures exists n: nat :: 10000 <= n <= 99999 && id == NatToString(n)
    {
      var n;
      id, n := FreshId("", books.items.Keys, 10000, 99999);
      assert id == NatToString(n);
    }

    /** `register_book()`: refuses copies that are not a positive digit string, then a
        shelf choice outside 1..3; otherwise adds one book, with its copies as a number,
        under a fresh id. */
    method RegisterBook(title: string, author: string, isbn: string, genre: string,
                        copies: string, choice: string) returns (r: Result<string, RegisterError>)
      requires Valid() && |books.items| <= 89999
      modifies this
      ensures Valid()
      ensures r.Err? <==> CheckRegistration(copies, choice).Err?
      ensures r.Err? ==> r.error == CheckRegistration(copies, choice).error && books == old(books)
      ensures r.Ok? ==>
        var (count, shelf) := CheckRegistration(copies, choice).value;
        r.value !in old(books.items) &&
        books.keys == old(books.keys) + [r.value] &&
        books.items == old(books.items)[r.value := Book(title, author, isbn, genre, count, shelf)]
    {
      var checked := CheckRegistration(copies, choice);
      if checked.Err? {
        return Err(checked.error);
      }
      var id := GenerateBookId();
      books := books.Put(id, Book(title, author, isbn, genre, checked.value.0, checked.value.1));
      return Ok(id);
    }

    /** `edit_book()` as written. The copies are replaced only by a digit string below
        zero, which cannot exist, so they never change; and the record is written back
        only in the branch for an invalid shelf choice, so a valid choice changes
        nothing at all, while an invalid one keeps the shelf and applies the text edits. */
    method EditBook(id: string, title: string, author: string, isbn: string, genre: string,
                    copies: string, choice: string) returns (r: EditOutcome)
      requires Valid()
      modifies this
      ensures Valid()
      ensures r == if id == "" then EmptyId else if id !in old(books.items) then UnknownId
                   else if ShelfChoice(choice).Some? then NotWritten else Written
      ensures r != Written ==> books == old(books)
      ensures books.keys == old(books.keys) && books.items.Keys == old(books.items.Keys)
      ensures forall k :: k in books.items ==>
        books.items[k].copies == old(books.items)[k].copies &&
        books.items[k].location == old(books.items)[k].location &&
        (k != id ==> books.items[k] == old(books.items)[k])
      ensures r == Written ==>
        var b := old(books.items)[id];
        books.items[id].title == (if title != "" then title else b.title) &&
        books.items[id].author == (if author != "" then author else b.author) &&
        books.items[id].isbn == (if isbn != "" then isbn else b.isbn) &&
        books.items[id].genre == (if genre != "" then genre else b.genre)
    {
      if id == "" {
        return EmptyId;
      }
      if id !in books.items {
        return UnknownId;
      }
      var book := books.items[id];
      var newTitle := if title != "" then title else book.title;
      var newAuthor := if author != "" then author else book.author;
      var newIsbn := if isbn != "" then isbn else book.isbn;
      var newGenre := if genre != "" then genre else book.genre;
      var newCopies := book.copies;
      var typed := if IsDigits(copies) then CountOf(copies) else 0;
      if IsDigits(copies) && typed < 0 {
        newCopies := typed;
      }
      var shelf := ShelfChoice(choice);
      if shelf.Some? {
        return NotWritten;
      }
      var newLocation := book.location;
      books := books.Put(id, Book(newTitle, newAuthor, newIsbn, newGenre, newCopies, newLocation));
      return Written;
    }

    /** `delete_book()`: removes exactly an existing id; an unknown one changes nothing. */
    method DeleteBook(id: string) returns (removed: bool)
      requires Valid()
      modifies this
      ensures Valid()
      ensures removed <==> id in old(books.items)
      ensures books == if removed then old(books).Remove(id) else old(books)
    {
      if id !in books.items {
        return false;
      }
      books := books.Remove(id);
      return true;
    }

    /** `search_book()`: an empty term is refused; otherwise the matching books, each
        with its position among all books (see `TaggedMembership`, `TaggedIncreasing`). */
    method SearchBook(term: string) returns (r: Option<seq<(int, Book<int>)>>)
      requires Valid()
      ensures r.None? <==> term == ""
      ensures r.Some? ==> r.value == Tagged(books.keys, books.items, Lower(term))
    {
      var entry := Lower(term);
      if entry == "" {
        return None;
      }
      var matches := [];
      var i := 0;
      while i < |books.keys|
        invariant 0 <= i <= |books.keys|
        invariant matches == Tagged(books.keys[..i], books.items, entry)
      {
        var book := books.items[books.keys[i]];
        if Contains(Lower(book.title), entry) || Contains(Lower(book.author), entry) {
          matches := matches + [(i + 1, book)];
        }
        assert books.keys[..i + 1][..i] == books.keys[..i];
        i := i + 1;
      }
      assert books.keys[..i] == books.keys;
      return Some(matches);
    }

    /** `borrow_book()`: a book with copies left loses exactly one; otherwise nothing
        changes. */
    method BorrowBook(id: string) returns (r: BorrowOutcome)
      requires Valid()
      modifies this
      ensures Valid()
      ensures r == if id !in old(books.items) then NoSuchBook
                   else if old(books.items)[id].copies > 0 then Borrowed else NoCopies
      ensures books == if r == Borrowed then old(books).Put(id, old(books.items)[id].(copies := old(books.items)[id].copies - 1))
                       else old(books)
    {
      if id !in books.items {
        return NoSuchBook;
      }
      var book := books.items[id];
      if book.copies > 0 {
        books := books.Put(id, book.(copies := book.copies - 1));
        return Borrowed;
      }
      return NoCopies;
    }
  }
}
