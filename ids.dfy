/** Identifier generation shared by the scripts: a loop that draws
    `prefix + str(random.randint(lo, hi))` until the draw is not already taken.
    The random draw is modelled as a choice of any free number in range. */
module Ids {
  import opened Text

  /** Every identifier that `prefix + str(randint(lo, hi))` can produce. */
  ghost function IdSpace(prefix: string, lo: nat, hi: int): set<string> {
    set n: nat | lo <= n <= hi :: prefix + NatToString(n)
  }

  /** Distinct numbers give distinct identifiers. */
  lemma IdInjective(prefix: string, m: nat, n: nat)
    requires prefix + NatToString(m) == prefix + NatToString(n)
    ensures m == n
  {
    var a, b := prefix + NatToString(m), prefix + NatToString(n);
    assert a[|prefix|..] == NatToString(m);
    assert b[|prefix|..] == NatToString(n);
  }

  /** The range `lo..hi` yields exactly `hi - lo + 1` different identifiers. */
  lemma {:induction false} IdSpaceSize(prefix: string, lo: nat, hi: int)
    requires lo <= hi + 1
    ensures |IdSpace(prefix, lo, hi)| == hi + 1 - lo
    decreases hi - lo
  {
    if hi < lo {
      assert IdSpace(prefix, lo, hi) == {};
    } else {
      IdSpaceSize(prefix, lo, hi - 1);
      var x := prefix + NatToString(hi);
      var smaller := IdSpace(prefix, lo, hi - 1);
      assert IdSpace(prefix, lo, hi) == smaller + {x};
      if x in smaller {
        var n: nat :| lo <= n <= hi - 1 && prefix + NatToString(n) == x;
        IdInjective(prefix, n, hi);
      }
    }
  }

  /** While fewer identifiers are taken than the range holds, a free one exists:
      the retry loop has something to find. */
  lemma FreeIdExists(prefix: string, taken: set<string>, lo: nat, hi: nat)
    requires lo <= hi && |taken| <= hi - lo
    ensures exists n: nat :: lo <= n <= hi && prefix + NatToString(n) !in taken
  {
    IdSpaceSize(prefix, lo, hi);
    var space := IdSpace(prefix, lo, hi);
    assert |space - taken| > 0 by {
      assert |space| == |space * taken| + |space - taken|;
      assert |space * taken| <= |taken| by {
        assert |taken| == |space * taken| + |taken - space|;
      }
    }
    var x :| x in space - taken;
  }

  /** The retry loop `while id in taken: id = prefix + str(randint(lo, hi))`:
      returns an identifier of the required shape that is not yet taken. */
  method FreshId(prefix: string, taken: set<string>, lo: nat, hi: nat) returns (id: string, n: nat)
    requires lo <= hi && |taken| <= hi - lo
    ensures lo <= n <= hi && id == prefix + NatToString(n)
    ensures id !in taken
  {
    FreeIdExists(prefix, taken, lo, hi);
    n :| lo <= n <= hi && prefix + NatToString(n) !in taken;
    id := prefix + NatToString(n);
  }
}
