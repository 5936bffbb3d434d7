/** What the three small library scripts (book_oop.py, book_system.py,
    book_management.py) share: the book record, the validation of the copies and shelf
    answers, and the title-or-author search. */
module Library {
  import opened Common
  import opened Text

  /** The three shelves, offered as choices 1, 2 and 3. */
  const Shelves: seq<string> := ["Top Shelf", "Middle Shelf", "Bottom Shelf"]

  /** A book record. `C` is the type of its copies: an integer in book_system.py and
      book_management.py, and in book_oop.py either the digit text as typed or a count. */
  datatype Book<C> = Book(title: string, author: string, isbn: string, genre: string, copies: C, location: string)

  /** `copies.isdigit() and int(copies) > 0`. */
  predicate PositiveCount(s: string) {
    IsDigits(s) && DigitsValue(s) > 0
  }

  /** `int(s)` of a digit string. */
  function CountOf(s: string): int
    requires IsDigits(s)
  {
    DigitsValue(s)
  }

  /** The shelf a typed choice selects: `choice.isdigit()` and `int(choice)` in 1..3. */
  function ShelfChoice(choice: string): (r: Option<string>)
    ensures r.Some? <==> IsDigits(choice) && 1 <= DigitsValue(choice) <= 3
    ensures r.Some? ==> r.value in Shelves && r.value == Shelves[DigitsValue(choice) - 1]
  {
    if IsDigits(choice) && 1 <= DigitsValue(choice) <= 3 then Some(Shelves[DigitsValue(choice) - 1]) else None
  }

  /** Typing the number shown next to a shelf selects that shelf. */
  lemma ShelfChoiceOfMenu(i: nat)
    requires 1 <= i <= 3
    ensures ShelfChoice(NatToString(i)) == Some(Shelves[i - 1])
  {
  }

  /** Why a registration is refused. */
  datatype RegisterError = BadCopies | BadShelf

  /** The checks of `register_book`: copies first, then the shelf; on success the count
      and the shelf name. */
  function CheckRegistration(copies: string, choice: string): (r: Result<(int, string), RegisterError>)
    ensures r.Ok? <==> PositiveCount(copies) && ShelfChoice(choice).Some?
    ensures r == Err(BadCopies) <==> !PositiveCount(copies)
    ensures r.Ok? ==> r.value.0 > 0 && r.value.0 == DigitsValue(copies) && r.value.1 == ShelfChoice(choice).value
  {
    if !PositiveCount(copies) then Err(BadCopies)
    else if ShelfChoice(choice).None? then Err(BadShelf)
    else Ok((CountOf(copies), ShelfChoice(choice).value))
  }

  /** `term in title.lower() or term in author.lower()`. */
  predicate Mentions<C>(b: Book<C>, term: string) {
    Contains(Lower(b.title), term) || Contains(Lower(b.author), term)
  }

  /** The (id, book) pairs of the books under `ids` that mention `term`, in that order. */
  function Matching<C>(ids: seq<string>, m: map<string, Book<C>>, term: string): seq<(string, Book<C>)>
    requires forall k :: k in ids ==> k in m
  {
    if ids == [] then []
    else
      var last := ids[|ids| - 1];
      Matching(ids[..|ids| - 1], m, term) + (if Mentions(m[last], term) then [(last, m[last])] else [])
  }

  /** A pair is found exactly when it is a listed book that mentions the term. */
  lemma {:induction false} MatchingMembership<C>(ids: seq<string>, m: map<string, Book<C>>, term: string,
                                                 hit: (string, Book<C>))
    requires forall k :: k in ids ==> k in m
    ensures hit in Matching(ids, m, term) <==> hit.0 in ids && hit.1 == m[hit.0] && Mentions(hit.1, term)
  {
    if ids != [] {
      var init, last := ids[..|ids| - 1], ids[|ids| - 1];
      MatchingMembership(init, m, term, hit);
      assert ids == init + [last];
      assert hit.0 in ids <==> hit.0 in init || hit.0 == last;
    }
  }
}
