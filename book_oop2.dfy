/** book_oop2.py: a library with users who log in, and a ledger of the books each user
    has on loan. Dates are day numbers. */
module BookOop2 {
  import opened Common
  import opened Text
  import opened PyDict
  import opened Ids
  import Library

  datatype User = User(username: string, password: string, role: string, name: string, email: string,
                       status: string, joinDate: Option<int>)

  datatype Book = Book(title: string, author: string, isbn: string, genre: string, copies: int,
                       location: string, added: int)

  /** One entry of a user's ledger. */
  datatype Loan = Loan(borrowDate: int, dueDate: int, status: string)

  /** `borrowing_records`: user id to (book id to loan). */
  type Ledger = map<string, map<string, Loan>>

  /** How many users have the book on loan. */
  ghost function Outstanding(records: Ledger, b: string): nat {
    |set u | u in records && b in records[u]|
  }

  /** The ledger after user `u` takes out book `b`: the user's entry is created empty
      when missing, then the loan is added to it. */
  function WithLoan(records: Ledger, u: string, b: string, loan: Loan): Ledger {
    records[u := (if u in records then records[u] else map[])[b := loan]]
  }

  /** The ledger after user `u` returns book `b`: the loan is deleted, and the user's
      entry with it when nothing else is left in it. */
  function WithoutLoan(records: Ledger, u: string, b: string): Ledger
    requires u in records
  {
    var rest := records[u] - {b};
    if rest == map[] then records - {u} else records[u := rest]
  }

  /** A loan of a book the user did not have adds one to that book's outstanding count
      and leaves every other book's count alone. */
  lemma LoanCounted(records: Ledger, u: string, b: string, loan: Loan, other: string)
    requires !(u in records && b in records[u])
    ensures Outstanding(WithLoan(records, u, b, loan), b) == Outstanding(records, b) + 1
    ensures other != b ==> Outstanding(WithLoan(records, u, b, loan), other) == Outstanding(records, other)
  {
    var after := WithLoan(records, u, b, loan);
    var before := set v | v in records && b in records[v];
    assert (set v | v in after && b in after[v]) == before + {u};
    if other != b {
      forall v | v in after
        ensures other in after[v] <==> v in records && other in records[v]
      {
        if v == u && u !in records {
          assert after[v] == map[b := loan];
        }
      }
      assert (set v | v in after && other in after[v]) == (set v | v in records && other in records[v]);
    }
  }

  /** Returning a loan takes one off that book's outstanding count and leaves every
      other book's count alone. */
  lemma ReturnCounted(records: Ledger, u: string, b: string, other: string)
    requires u in records && b in records[u]
    ensures Outstanding(WithoutLoan(records, u, b), b) == Outstanding(records, b) - 1
    ensures other != b ==> Outstanding(WithoutLoan(records, u, b), other) == Outstanding(records, other)
  {
    var after := WithoutLoan(records, u, b);
    var before := set v | v in records && b in records[v];
    assert (set v | v in after && b in after[v]) == before - {u};
    if other != b {
      forall v | v in records
        ensures (v in after && other in after[v]) <==> other in records[v]
      {
        if v == u && other in records[u] {
          assert other in records[u] - {b};
        }
      }
      assert (set v | v in after && other in after[v]) == (set v | v in records && other in records[v]);
    }
  }

  /** Neither a loan nor a return leaves a user with an empty ledger entry. */
  lemma LedgerEntriesNonEmpty(records: Ledger, u: string, b: string, loan: Loan)
    requires forall v :: v in records ==> records[v] != map[]
    ensures forall v :: v in WithLoan(records, u, b, loan) ==> WithLoan(records, u, b, loan)[v] != map[]
    ensures u in records ==> forall v :: v in WithoutLoan(records, u, b) ==> WithoutLoan(records, u, b)[v] != map[]
  {
    assert b in WithLoan(records, u, b, loan)[u];
  }

  /** The copies on the shelf plus the copies out on loan. */
  ghost function Stock(books: map<string, Book>, records: Ledger, b: string): int
    requires b in books
  {
    books[b].copies + Outstanding(records, b)
  }

  /** Every loan is of a book in the catalogue. */
  ghost predicate LoansKnown(books: map<string, Book>, records: Ledger) {
    forall u, b :: u in records && b in records[u] ==> b in books
  }

  /** No user has an empty ledger entry. */
  ghost predicate NoEmptyEntry(records: Ledger) {
    forall v :: v in records ==> records[v] != map[]
  }

  /** The catalogue with `delta` added to book `b`'s copies. */
  function Recount(books: map<string, Book>, b: string, delta: int): (r: map<string, Book>)
    requires b in books
    ensures r.Keys == books.Keys && r[b].copies == books[b].copies + delta
    ensures r[b] == books[b].(copies := books[b].copies + delta)
    ensures forall k :: k in books && k != b ==> r[k] == books[k]
  {
    books[b := books[b].(copies := books[b].copies + delta)]
  }

  /** A borrow (one copy off the shelf, one loan more) keeps every book's stock, keeps
      every loan pointing at a catalogued book, and leaves no empty ledger entry. */
  lemma BorrowConserves(books: map<string, Book>, records: Ledger, u: string, b: string, loan: Loan)
    requires b in books && !(u in records && b in records[u]) && LoansKnown(books, records)
    ensures LoansKnown(Recount(books, b, -1), WithLoan(records, u, b, loan))
    ensures NoEmptyEntry(records) ==> NoEmptyEntry(WithLoan(records, u, b, loan))
    ensures forall k :: k in books ==>
              Stock(Recount(books, b, -1), WithLoan(records, u, b, loan), k) == Stock(books, records, k)
  {
    forall k | k in books
      ensures Stock(Recount(books, b, -1), WithLoan(records, u, b, loan), k) == Stock(books, records, k)
    {
      LoanCounted(records, u, b, loan, k);
    }
    if NoEmptyEntry(records) {
      LedgerEntriesNonEmpty(records, u, b, loan);
    }
  }

  /** A return (one copy back, one loan fewer) keeps every book's stock, keeps every
      loan pointing at a catalogued book, and leaves the returning user no empty entry. */
  lemma ReturnConserves(books: map<string, Book>, records: Ledger, u: string, b: string)
    requires u in records && b in records[u] && LoansKnown(books, records)
    ensures b in books
    ensures LoansKnown(Recount(books, b, 1), WithoutLoan(records, u, b))
    ensures NoEmptyEntry(records) ==> NoEmptyEntry(WithoutLoan(records, u, b))
    ensures u in WithoutLoan(records, u, b) ==> WithoutLoan(records, u, b)[u] != map[]
    ensures forall k :: k in books ==>
              Stock(Recount(books, b, 1), WithoutLoan(records, u, b), k) == Stock(books, records, k)
  {
    forall k | k in books
      ensures Stock(Recount(books, b, 1), WithoutLoan(records, u, b), k) == Stock(books, records, k)
    {
      ReturnCounted(records, u, b, k);
    }
    if NoEmptyEntry(records) {
      LedgerEntriesNonEmpty(records, u, b, records[u][b]);
    }
  }

  /** The first user, in dict order, with this username and password. */
  function FirstMatch(ids: seq<string>, users: map<string, User>, username: string, password: string): (r: Option<string>)
    requires forall k :: k in ids ==> k in users
    ensures r.None? <==> forall i :: 0 <= i < |ids| ==> !(users[ids[i]].username == username && users[ids[i]].password == password)
    ensures r.Some? ==> exists i :: (0 <= i < |ids| && ids[i] == r.value &&
                        users[ids[i]].username == username && users[ids[i]].password == password &&
                        forall j :: 0 <= j < i ==> !(users[ids[j]].username == username && users[ids[j]].password == password))
  {
    if ids == [] then None
    else if users[ids[0]].username == username && users[ids[0]].password == password then Some(ids[0])
    else
      var r := FirstMatch(ids[1..], users, username, password);
      assert forall i :: 0 < i < |ids| ==> ids[i] == ids[1..][i - 1];
      r
  }

  /** The search of `search_book` for choices other than "4": by title ("1"), author
      ("2") or genre ("3"); any other choice matches nothing. */
  predicate Hit(b: Book, choice: string, term: string) {
    (choice == "1" && Contains(Lower(b.title), term)) ||
    (choice == "2" && Contains(Lower(b.author), term)) ||
    (choice == "3" && Contains(Lower(b.genre), term))
  }

  function Found(ids: seq<string>, m: map<string, Book>, choice: string, term: string): seq<(string, Book)>
    requires forall k :: k in ids ==> k in m
  {
    if ids == [] then []
    else
      var last := ids[|ids| - 1];
      Found(ids[..|ids| - 1], m, choice, term) + (if Hit(m[last], choice, term) then [(last, m[last])] else [])
  }

  /** A pair is found exactly when it is a listed book that the choice and term select. */
  lemma {:induction false} FoundMembership(ids: seq<string>, m: map<string, Book>, choice: string, term: string,
                                           hit: (string, Book))
    requires forall k :: k in ids ==> k in m
    ensures hit in Found(ids, m, choice, term) <==> hit.0 in ids && hit.1 == m[hit.0] && Hit(hit.1, choice, term)
  {
    if ids != [] {
      var init, last := ids[..|ids| - 1], ids[|ids| - 1];
      FoundMembership(init, m, choice, term, hit);
      assert ids == init + [last];
      assert hit.0 in ids <==> hit.0 in init || hit.0 == last;
    }
  }

  datatype LoginResult = Exit | Welcome(id: string) | Retry
  datatype AddError = NotANumber | NoSuchShelf
  datatype BorrowOutcome = Borrowed(due: int) | NotLoggedIn | NoSuchBook | NoCopies | AlreadyBorrowed
  datatype ReturnOutcome = Returned(daysLate: nat) | NoLogin | NothingBorrowed | NotBorrowed

  /** Days a book comes back after its due date, none when on time. */
  function DaysLate(due: int, today: int): (d: nat)
    ensures d > 0 <==> today > due
    ensures d > 0 ==> due + d == today
  {
    if today > due then today - due else 0
  }

  /** `locations[index]` with Python's negative indexing: -1 is the last shelf. */
  function ShelfAt(index: int): (shelf: string)
    requires -|Library.Shelves| <= index < |Library.Shelves|
    ensures shelf == Library.Shelves[index % |Library.Shelves|]
  {
    if index >= 0 then Library.Shelves[index]
    else
      assert index % |Library.Shelves| == index + |Library.Shelves|;
      Library.Shelves[|Library.Shelves| + index]
  }

  class BookManagementSystem {
    var books: Dict<string, Book>
    var users: Dict<string, User>
    var records: Ledger
    var currentUser: Option<string>

    /** `if self.current_user:` is true for a user id that is not empty. */
    predicate LoggedIn()
      reads this
    {
      currentUser.Some? && currentUser.value != ""
    }

    ghost predicate Valid()
      reads this
    {
      books.Valid() && users.Valid() &&
      (LoggedIn() ==> currentUser.value in users.items) &&
      LoansKnown(books.items, records)
    }

    /** The system over data already loaded, nobody logged in. */
    constructor (books: Dict<string, Book>, users: Dict<string, User>, records: Ledger)
      requires books.Valid() && users.Valid() && LoansKnown(books.items, records)
      ensures Valid() && !LoggedIn()
      ensures this.books == books && this.users == users && this.records == records && currentUser == None
    {
      this.books, this.users, this.records := books, users, records;
      currentUser := None;
    }

    /** `_is_admin()`, as last defined in the class: `True` for a logged-in user whose
        role is "admin", and `False` (not `None`) otherwise. */
    function IsAdmin(): (r: bool)
      reads this
      requires Valid()
      ensures r ==> LoggedIn() && currentUser.value in users.items
      ensures r <==> exists u :: u in users.items && currentUser == Some(u) && u != "" &&
                                 users.items[u].role == "admin"
    {
      LoggedIn() && users.items[currentUser.value].role == "admin"
    }

    /** One round of `login()`: "exit" in any case quits; otherwise the first user with
        both username and password equal logs in, except that an empty user id counts as
        no match and the prompt comes round again. */
    method Login(username: string, password: string) returns (r: LoginResult)
      requires Valid()
      modifies this
      ensures Valid()
      ensures books == old(books) && users == old(users) && records == old(records)
      ensures Lower(username) == "exit" ==> r == Exit
      ensures Lower(username) != "exit" ==>
        var found := FirstMatch(users.keys, users.items, username, password);
        r == if found.Some? && found.value != "" then Welcome(found.value) else Retry
      ensures currentUser == if r.Welcome? then Some(r.id) else old(currentUser)
    {
      if Lower(username) == "exit" {
        return Exit;
      }
      var keys, items := users.keys, users.items;
      var userId: Option<string> := None;
      var i := 0;
      assert keys[i..] == keys;
      while i < |keys|
        invariant 0 <= i <= |keys|
        invariant FirstMatch(keys, items, username, password) ==
                  if userId.Some? then userId else FirstMatch(keys[i..], items, username, password)
      {
        var user := items[keys[i]];
        if user.username == username && user.password == password {
          userId := Some(keys[i]);
          break;
        }
        assert keys[i..][1..] == keys[i + 1..];
        i := i + 1;
      }
      if userId.Some? && userId.value != "" {
        currentUser := userId;
        return Welcome(userId.value);
      }
      return Retry;
    }

    /** `register_user()`: a username already in use is refused and nothing changes;
        otherwise a fresh "USER" id with a number in 1000..9999 gets an active account
        with the role "user", joined today. */
    method RegisterUser(username: string, password: string, name: string, email: string, today: int)
      returns (r: Option<string>)
      requires Valid() && |users.items| <= 8999
      modifies this
      ensures Valid()
      ensures books == old(books) && records == old(records) && currentUser == old(currentUser)
      ensures r.None? <==> exists k :: k in old(users.items) && old(users.items)[k].username == username
      ensures r.None? ==> users == old(users)
      ensures r.Some? ==>
        (exists n: nat :: 1000 <= n <= 9999 && r.value == "USER" + NatToString(n)) &&
        r.value !in old(users.items) &&
        users == old(users).Put(r.value, User(username, password, "user", name, email, "active", Some(today)))
    {
      var keys, items := users.keys, users.items;
      var i := 0;
      while i < |keys|
        invariant 0 <= i <= |keys|
        invariant forall j :: 0 <= j < i ==> items[keys[j]].username != username
      {
        if items[keys[i]].username == username {
          return None;
        }
        i := i + 1;
      }
      assert forall k :: k in items ==> items[k].username != username by {
        forall k | k in items
          ensures items[k].username != username
        {
          var j :| 0 <= j < |keys| && keys[j] == k;
        }
      }
      var id, n := FreshId("USER", users.items.Keys, 1000, 9999);
      users := users.Put(id, User(username, password, "user", name, email, "active", Some(today)));
      return Some(id);
    }

    /** `add_book()`. The admin check is never made (the method object itself is
        tested, and it is always true), so anyone may add. The copies are taken as any
        integer; the shelf list is indexed Python-style with `choice - 1`, so choices
        -2..3 all pick a shelf (0 the bottom one) and others raise `IndexError`. */
    method AddBook(title: string, author: string, isbn: string, genre: string, copies: Option<int>,
                   choice: Option<int>, today: int) returns (r: Result<string, AddError>)
      requires Valid() && |books.items| <= 8999
      modifies this
      ensures Valid()
      ensures users == old(users) && records == old(records) && currentUser == old(currentUser)
      ensures r.Ok? <==> copies.Some? && choice.Some? && -2 <= choice.value <= 3
      // the admin gate never closes: a caller who is not an admin is refused only for
      // the same bad input as anyone else
      ensures !old(IsAdmin()) ==> (r.Ok? <==> copies.Some? && choice.Some? && -2 <= choice.value <= 3)
      ensures r.Err? ==> books == old(books) &&
                         r.error == if copies.None? || choice.None? then NotANumber else NoSuchShelf
      ensures r.Ok? ==>
        (exists n: nat :: 1000 <= n <= 9999 && r.value == "BOOK" + NatToString(n)) &&
        r.value !in old(books.items) &&
        books == old(books).Put(r.value, Book(title, author, isbn, genre, copies.value,
                                              Library.Shelves[(choice.value - 1) % 3], today))
    {
      if copies.None? || choice.None? {
        return Err(NotANumber);
      }
      var index := choice.value - 1;
      if index < -3 || index >= 3 {
        return Err(NoSuchShelf);
      }
      var location := ShelfAt(index);
      var id, n := FreshId("BOOK", books.items.Keys, 1000, 9999);
      books := books.Put(id, Book(title, author, isbn, genre, copies.value, location, today));
      return Ok(id);
    }

    /** `search_book()`: choice "4" lists every book; otherwise the books `Hit` selects
        with the lower-cased term, in dict order (see `FoundMembership`). */
    method SearchBook(choice: string, term: string) returns (results: seq<(string, Book)>)
      requires Valid()
      ensures choice == "4" ==> |results| == |books.keys| &&
                                forall i :: 0 <= i < |results| ==> results[i] == (books.keys[i], books.items[books.keys[i]])
      ensures choice != "4" ==> results == Found(books.keys, books.items, choice, Lower(term))
    {
      if choice == "4" {
        var keys, items := books.keys, books.items;
        return seq(|keys|, i requires 0 <= i < |keys| => (keys[i], items[keys[i]]));
      }
      var keys, items := books.keys, books.items;
      var needle := Lower(term);
      results := [];
      var i := 0;
      while i < |keys|
        invariant 0 <= i <= |keys|
        invariant results == Found(keys[..i], items, choice, needle)
      {
        var id := keys[i];
        var book := items[id];
        if (choice == "1" && Contains(Lower(book.title), needle)) ||
           (choice == "2" && Contains(Lower(book.author), needle)) ||
           (choice == "3" && Contains(Lower(book.genre), needle)) {
          results := results + [(id, book)];
        }
        assert keys[..i + 1][..i] == keys[..i];
        i := i + 1;
      }
      assert keys[..i] == keys;
    }

    /** `borrow_book()`: needs a logged-in user, a known book with copies left and no
        loan of it already; then a loan due in 14 days is recorded and one copy leaves
        the shelf. Copies on the shelf plus copies on loan stay the same for every book. */
    method BorrowBook(bookId: string, today: int) returns (r: BorrowOutcome)
      requires Valid()
      modifies this
      ensures Valid()
      ensures users == old(users) && currentUser == old(currentUser)
      ensures r == if !LoggedIn() then NotLoggedIn
                   else if bookId !in old(books.items) then NoSuchBook
                   else if old(books.items)[bookId].copies <= 0 then NoCopies
                   else if currentUser.value in old(records) && bookId in old(records)[currentUser.value] then AlreadyBorrowed
                   else Borrowed(today + 14)
      ensures !r.Borrowed? ==> books == old(books) && records == old(records)
      ensures r.Borrowed? ==>
        books.keys == old(books.keys) && books.items == Recount(old(books.items), bookId, -1) &&
        records == WithLoan(old(records), currentUser.value, bookId, Loan(today, today + 14, "borrowed"))
      ensures forall b :: b in books.items ==> Stock(books.items, records, b) == old(Stock(books.items, records, b))
      ensures old(NoEmptyEntry(records)) ==> NoEmptyEntry(records)
    {
      if !LoggedIn() {
        return NotLoggedIn;
      }
      if bookId !in books.items {
        return NoSuchBook;
      }
      var book := books.items[bookId];
      if book.copies <= 0 {
        return NoCopies;
      }
      var u := currentUser.value;
      if u in records && bookId in records[u] {
        return AlreadyBorrowed;
      }
      Lend(u, bookId, Loan(today, today + 14, "borrowed"));
      return Borrowed(today + 14);
    }

    /** The bookkeeping of a borrow that passed every check: the loan goes into the
        user's ledger entry and one copy leaves the shelf. */
    method Lend(u: string, bookId: string, loan: Loan)
      requires Valid() && bookId in books.items && !(u in records && bookId in records[u])
      modifies this
      ensures Valid()
      ensures users == old(users) && currentUser == old(currentUser)
      ensures books.keys == old(books.keys) && books.items == Recount(old(books.items), bookId, -1)
      ensures records == WithLoan(old(records), u, bookId, loan)
      ensures forall b :: b in books.items ==> Stock(books.items, records, b) == old(Stock(books.items, records, b))
      ensures old(NoEmptyEntry(records)) ==> NoEmptyEntry(records)
    {
      BorrowConserves(books.items, records, u, bookId, loan);
      var book := books.items[bookId];
      var entry := if u in records then records[u] else map[];
      books, records := books.Put(bookId, book.(copies := book.copies - 1)), records[u := entry[bookId := loan]];
    }

    /** `return_book()`: needs a logged-in user with a non-empty ledger holding the
        book; then the book gets one copy back, the loan is deleted, and the user's
        ledger goes too once empty. Days late are counted past the due date. */
    method ReturnBook(bookId: string, today: int) returns (r: ReturnOutcome)
      requires Valid()
      modifies this
      ensures Valid()
      ensures users == old(users) && currentUser == old(currentUser)
      ensures r == if !LoggedIn() then NoLogin
                   else if currentUser.value !in old(records) || old(records)[currentUser.value] == map[] then NothingBorrowed
                   else if bookId !in old(records)[currentUser.value] then NotBorrowed
                   else Returned(DaysLate(old(records)[currentUser.value][bookId].dueDate, today))
      ensures !r.Returned? ==> books == old(books) && records == old(records)
      ensures r.Returned? ==>
        books.keys == old(books.keys) && books.items == Recount(old(books.items), bookId, 1) &&
        records == WithoutLoan(old(records), currentUser.value, bookId) &&
        (currentUser.value in records ==> records[currentUser.value] != map[])
      ensures forall b :: b in books.items ==> Stock(books.items, records, b) == old(Stock(books.items, records, b))
      ensures old(NoEmptyEntry(records)) ==> NoEmptyEntry(records)
    {
      if !LoggedIn() {
        return NoLogin;
      }
      var u := currentUser.value;
      if u !in records || records[u] == map[] {
        return NothingBorrowed;
      }
      if bookId !in records[u] {
        return NotBorrowed;
      }
      var late := DaysLate(records[u][bookId].dueDate, today);
      TakeBack(u, bookId);
      return Returned(late);
    }

    /** The bookkeeping of a return that passed every check: one copy goes back on the
        shelf, the loan is deleted, and the user's entry with it once empty. */
    method TakeBack(u: string, bookId: string)
      requires Valid() && u in records && bookId in records[u]
      modifies this
      ensures Valid()
      ensures users == old(users) && currentUser == old(currentUser)
      ensures bookId in old(books.items)
      ensures books.keys == old(books.keys) && books.items == Recount(old(books.items), bookId, 1)
      ensures records == WithoutLoan(old(records), u, bookId)
      ensures u in records ==> records[u] != map[]
      ensures forall b :: b in books.items ==> Stock(books.items, records, b) == old(Stock(books.items, records, b))
      ensures old(NoEmptyEntry(records)) ==> NoEmptyEntry(records)
    {
      ReturnConserves(books.items, records, u, bookId);
      var book := books.items[bookId];
      var ledger := records[u := records[u] - {bookId}];
      if ledger[u] == map[] {
        ledger := ledger - {u};
      }
      books, records := books.Put(bookId, book.(copies := book.copies + 1)), ledger;
    }
  }
}
