/** password_bugs.py: a password validator that checks only the length and the absence
    of spaces, and keeps the last five passwords added to its history. */
module PasswordBugs {

  /** How many passwords the history keeps. */
  const HistorySize := 5

  /** The last (at most) five passwords of `ps`. */
  function Recent(ps: seq<string>): (r: seq<string>)
    ensures |r| <= HistorySize && |r| == if |ps| < HistorySize then |ps| else HistorySize
    ensures r == ps[|ps| - |r|..]
  {
    if |ps| <= HistorySize then ps else ps[|ps| - HistorySize..]
  }

  /** One `add_to_history(password)` on the list `history`: append, then drop the
      oldest entry once if there are more than five. */
  function Added(history: seq<string>, password: string): seq<string> {
    var longer := history + [password];
    if |longer| > HistorySize then longer[1..] else longer
  }

  /** The history after adding each of `ps` in turn, starting from `history`. */
  function AddedAll(history: seq<string>, ps: seq<string>): seq<string> {
    if ps == [] then history else Added(AddedAll(history, ps[..|ps| - 1]), ps[|ps| - 1])
  }

  /** Keeping the last five and then adding one keeps the last five of the whole. */
  lemma RecentThenAdd(ps: seq<string>, p: string)
    ensures Added(Recent(ps), p) == Recent(ps + [p])
  {
    if |ps| > HistorySize {
      assert (ps[|ps| - HistorySize..] + [p])[1..] == (ps + [p])[|ps| + 1 - HistorySize..];
    }
  }

  /** Whatever was added, the history holds exactly the last (at most) five passwords
      of what it started from followed by what was added; from an empty history, the
      last five added. */
  lemma {:induction false} AddedAllIsRecent(history: seq<string>, ps: seq<string>)
    requires |history| <= HistorySize
    ensures AddedAll(history, ps) == Recent(history + ps)
  {
    if ps == [] {
      assert history + ps == history;
    } else {
      var front := ps[..|ps| - 1];
      AddedAllIsRecent(history, front);
      RecentThenAdd(history + front, ps[|ps| - 1]);
      assert history + front + [ps[|ps| - 1]] == history + ps;
    }
  }

  /** The newest password is always the last one added, and there are never more
      than five. */
  lemma NewestLast(history: seq<string>, ps: seq<string>)
    requires |history| <= HistorySize && ps != []
    ensures |AddedAll(history, ps)| <= HistorySize
    ensures AddedAll(history, ps)[|AddedAll(history, ps)| - 1] == ps[|ps| - 1]
  {
    AddedAllIsRecent(history, ps);
  }

  /** A password not among the last five added is no longer in the history, however
      often it was added before them. */
  lemma ForgottenAfterFive(history: seq<string>, ps: seq<string>, p: string)
    requires |history| <= HistorySize && |ps| >= HistorySize
    requires p !in ps[|ps| - HistorySize..]
    ensures p !in AddedAll(history, ps)
  {
    AddedAllIsRecent(history, ps);
    var all := history + ps;
    assert Recent(all) == all[|all| - HistorySize..];
    assert all[|all| - HistorySize..] == ps[|ps| - HistorySize..];
  }

  class PasswordValidator {
    const minLength: int
    var history: seq<string>

    ghost predicate Valid()
      reads this
    {
      minLength == 8 && |history| <= HistorySize
    }

    constructor ()
      ensures Valid() && history == []
    {
      minLength := 8;
      history := [];
    }

    /** `validate_password(password)`: refuses a password shorter than the minimum
        length or one containing a space, and nothing else. */
    function ValidatePassword(password: string): (ok: bool)
      ensures ok <==> |password| >= minLength && ' ' !in password
    {
      if |password| < minLength then false
      else if ' ' in password then false
      else true
    }

    /** `add_to_history(password)`. */
    method AddToHistory(password: string)
      requires Valid()
      modifies this
      ensures Valid()
      ensures history == Added(old(history), password) == Recent(old(history) + [password])
      ensures history[|history| - 1] == password
    {
      history := history + [password];
      if |history| > HistorySize {
        history := history[1..];
      }
      RecentThenAdd(old(history), password);
      assert Recent(old(history)) == old(history);
    }

    /** `check_history(password)`: true exactly when the password is not among those
        kept. */
    function CheckHistory(password: string): (ok: bool)
      reads this
      ensures ok <==> forall i :: 0 <= i < |history| ==> history[i] != password
    {
      password !in history
    }
  }

  /** The verdicts on the sample passwords: a common password and one without
      uppercase letters or digits are accepted, since only length and spaces are
      checked. */
  lemma SamplePasswords(v: PasswordValidator)
    requires v.minLength == 8
    ensures v.ValidatePassword("password123") && v.ValidatePassword("abcdefgh")
    ensures !v.ValidatePassword("Pass word1") && !v.ValidatePassword("Short1")
  {
    assert "Pass word1"[4] == ' ';
  }
}
