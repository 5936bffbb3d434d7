/** book_management.py: the registration part of the library, a `books` dict shared by
    the nested functions of one function; here the dict is the field of one object. */
module BookManagement {
  import opened Common
  import opened Text
  import opened PyDict
  import opened Ids
  import opened Library

  class BookStore {
    var books: Dict<string, Book<int>>

    ghost predicate Valid()
      reads this
    {
      books.Valid()
    }

    constructor ()
      ensures Valid() && books == Empty()
    {
      books := Empty();
    }

    /** `generate_book_id()`: a 5-digit number, as text, that is not yet a key. */
    method GenerateBookId() returns (id: string)
      requires |books.items| <= 89999
      ensures id !in books.items
      ensures exists n: nat :: 10000 <= n <= 99999 && id == NatToString(n)
    {
      var n;
      id, n := FreshId("", books.items.Keys, 10000, 99999);
      assert id == NatToString(n);
    }

    /** `register_book()`: refuses copies that are not a positive digit string, then a
        shelf choice outside 1..3; otherwise adds exactly one book, its copies as a
        number and the chosen shelf's name, under a fresh id. */
    method RegisterBook(title: string, author: string, isbn: string, genre: string,
                        copies: string, choice: string) returns (r: Result<string, RegisterError>)
      requires Valid() && |books.items| <= 89999
      modifies this
      ensures Valid()
      ensures r.Err? <==> CheckRegistration(copies, choice).Err?
      ensures r.Err? ==> r.error == CheckRegistration(copies, choice).error && books == old(books)
      ensures r.Ok? ==>
        var (count, shelf) := CheckRegistration(copies, choice).value;
        r.value !in old(books.items) &&
        books.keys == old(books.keys) + [r.value] &&
        books.items == old(books.items)[r.value := Book(title, author, isbn, genre, count, shelf)]
    {
      var checked := CheckRegistration(copies, choice);
      if checked.Err? {
        return Err(checked.error);
      }
      var id := GenerateBookId();
      books := books.Put(id, Book(title, author, isbn, genre, checked.value.0, checked.value.1));
      return Ok(id);
    }
  }
}
