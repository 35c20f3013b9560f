/** The rate limit on issuing keys: a sliding window per address, swept when the table grows (internal/api/keys_handler.go). */
module KeyLimiter {
  const LIMIT := 3
  const WINDOW := 60 * 60 * 1_000_000_000
  const SWEEP_CUTOFF := 10000

  /** The times after the cutoff. */
  function After(times: seq<int>, cutoff: int): (r: seq<int>)
    ensures |r| <= |times|
  {
    if times == [] then []
    else
      var front, t := After(times[..|times| - 1], cutoff), times[|times| - 1];
      if t > cutoff then front + [t] else front
  }

  lemma AfterSnoc(times: seq<int>, t: int, cutoff: int)
    ensures After(times + [t], cutoff) == if t > cutoff then After(times, cutoff) + [t] else After(times, cutoff)
  {
    assert (times + [t])[..|times|] == times;
  }

  /** As many are left as there are times after the cutoff. */
  lemma {:induction false} AfterCounts(times: seq<int>, cutoff: int)
    ensures |After(times, cutoff)| == |set i | 0 <= i < |times| && times[i] > cutoff|
  {
    if times != [] {
      var n := |times| - 1;
      AfterCounts(times[..n], cutoff);
      var all, front := set i | 0 <= i < |times| && times[i] > cutoff, set i | 0 <= i < n && times[..n][i] > cutoff;
      assert all == if times[n] > cutoff then front + {n} else front;
    }
  }

  /** Cutting twice is cutting at the later time. */
  lemma {:induction false} AfterTwice(times: seq<int>, early: int, late: int)
    requires early <= late
    ensures After(After(times, early), late) == After(times, late)
  {
    if times != [] {
      var front, t := times[..|times| - 1], times[|times| - 1];
      AfterTwice(front, early, late);
      if t > early {
        AfterSnoc(After(front, early), t, late);
      }
    }
  }

  /** Two records agree on every cutoff from this one on. */
  ghost predicate SameAfter(a: seq<int>, b: seq<int>, cutoff: int) {
    forall later :: later >= cutoff ==> After(a, later) == After(b, later)
  }

  lemma SameAsItself(a: seq<int>, cutoff: int)
    ensures SameAfter(a, a, cutoff)
  {
  }

  lemma PrunedIsSame(a: seq<int>, b: seq<int>, cutoff: int)
    requires SameAfter(a, b, cutoff)
    ensures SameAfter(a, After(b, cutoff), cutoff)
    ensures |After(b, cutoff)| == 0 ==> SameAfter(a, [], cutoff)
  {
    hide After;
    forall later | later >= cutoff ensures After(a, later) == After(After(b, cutoff), later) {
      AfterTwice(b, cutoff, later);
    }
    if |After(b, cutoff)| == 0 {
      assert After(b, cutoff) == [];
    }
  }

  predicate Ascending(times: seq<int>) {
    forall i, j :: 0 <= i <= j < |times| ==> times[i] <= times[j]
  }

  /** Any four grants in a row span the window. */
  predicate Spaced(times: seq<int>) {
    forall i, j :: 0 <= i < |times| && j == i + LIMIT && j < |times| ==> times[j] - times[i] >= WINDOW
  }

  /** With fewer than three times after the cutoff, the third last is not after it. */
  lemma {:induction false} FewAfter(times: seq<int>, cutoff: int, n: nat)
    requires Ascending(times) && n <= |times| && |After(times, cutoff)| < n
    ensures times[|times| - n] <= cutoff
  {
    if n > 0 && times[|times| - n] > cutoff {
      ManyAfter(times, cutoff, n);
    }
  }

  lemma {:induction false} ManyAfter(times: seq<int>, cutoff: int, n: nat)
    requires Ascending(times) && n <= |times|
    requires n > 0 ==> times[|times| - n] > cutoff
    ensures |After(times, cutoff)| >= n
    decreases n
  {
    if n > 0 {
      var front := times[..|times| - 1];
      if n > 1 {
        assert front[|front| - (n - 1)] == times[|times| - n];
      }
      ManyAfter(front, cutoff, n - 1);
    }
  }

  class Limiter {
    var history: map<string, seq<int>>
    ghost var grants: map<string, seq<int>>
    ghost var clock: int

    constructor ()
      ensures Valid() && grants == map[]
    {
      history, grants, clock := map[], map[], 0;
    }

    function Known(ip: string): seq<int> reads `history {
      if ip in history then history[ip] else []
    }

    ghost function Granted(ip: string): seq<int> reads `grants {
      if ip in grants then grants[ip] else []
    }

    ghost predicate Valid() reads this {
      forall ip :: Faithful(Known(ip), Granted(ip), clock)
    }

    /** Drop what no later request will look at. */
    method Sweep(cutoff: int)
      requires Valid() && cutoff >= clock - WINDOW
      modifies this`history
      ensures forall ip :: SameAfter(old(Known(ip)), Known(ip), cutoff)
    {
      hide SameAfter, After, Faithful;
      forall ip ensures SameAfter(Known(ip), Known(ip), cutoff) {
        SameAsItself(Known(ip), cutoff);
      }
      var keys := history.Keys;
      while keys != {}
        invariant forall ip :: SameAfter(old(Known(ip)), Known(ip), cutoff)
        decreases |keys|
      {
        var k :| k in keys;
        keys := keys - {k};
        var fresh_ := Pruned(Known(k), cutoff);
        PrunedIsSame(old(Known(k)), Known(k), cutoff);
        if |fresh_| == 0 {
          history := history - {k};
        } else {
          history := history[k := fresh_];
        }
      }
    }

    method Pruned(times: seq<int>, cutoff: int) returns (r: seq<int>)
      ensures r == After(times, cutoff)
    {
      r := [];
      for i := 0 to |times|
        invariant r == After(times[..i], cutoff)
      {
        assert times[..i + 1][..i] == times[..i];
        if times[i] > cutoff {
          r := r + [times[i]];
        }
      }
      assert times[..|times|] == times;
    }

    /** A request is granted exactly when its address was granted fewer than three in the hour before; sweeping is never
        noticed. */
    method Admit(ip: string, now: int) returns (granted: bool)
      requires Valid() && now >= clock
      modifies this
      ensures Valid() && clock == now
      ensures granted <==> |set i | 0 <= i < |old(Granted(ip))| && old(Granted(ip))[i] > now - 3_600_000_000_000| < 3
      ensures grants == if granted then old(grants)[ip := old(Granted(ip)) + [now]] else old(grants)
    {
      hide Faithful, After, SameAfter;
      var cutoff := now - WINDOW;
      forall a ensures SameAfter(Known(a), Known(a), cutoff) {
        SameAsItself(Known(a), cutoff);
      }
      if |history| > SWEEP_CUTOFF {
        Sweep(cutoff);
      }
      forall a ensures Faithful(Known(a), Granted(a), now) {
        FaithfulLater(old(Known(a)), Known(a), Granted(a), clock, now);
      }
      var recent := Pruned(Known(ip), cutoff);
      RecentIsRecent(Known(ip), Granted(ip), now);
      AfterCounts(Granted(ip), cutoff);
      ghost var before := Granted(ip);
      clock := now;
      if |recent| >= LIMIT {
        return false;
      }
      FaithfulGrant(Known(ip), before, now);
      label granting:
      history := history[ip := recent + [now]];
      grants := grants[ip := before + [now]];
      forall a ensures Faithful(Known(a), Granted(a), now) {
        if a != ip {
          assert Known(a) == old@granting(Known(a)) && Granted(a) == old@granting(Granted(a));
        }
      }
      return true;
    }

    /** No window of an hour, wherever it starts, holds four grants to one address. */
    lemma NoFourInAWindow(ip: string, i: nat, j: nat, k: nat, l: nat, from: int)
      requires Valid() && i < j < k < l < |Granted(ip)|
      requires Granted(ip)[i] > from
      ensures Granted(ip)[l] > from + 3_600_000_000_000
    {
      assert Faithful(Known(ip), Granted(ip), clock);
      assert Granted(ip)[i + LIMIT] <= Granted(ip)[l];
    }
  }

  /** What the table holds for an address is as good as the full record for every cutoff still to come, and the address was
      granted no more than the limit in any window. */
  ghost predicate Faithful(known: seq<int>, granted: seq<int>, clock: int) {
    && (forall cutoff :: cutoff >= clock - WINDOW ==> After(known, cutoff) == After(granted, cutoff))
    && Ascending(granted) && Spaced(granted)
    && (forall i :: 0 <= i < |granted| ==> granted[i] <= clock)
  }

  lemma FaithfulLater(known: seq<int>, swept: seq<int>, granted: seq<int>, clock: int, now: int)
    requires Faithful(known, granted, clock) && clock <= now
    requires SameAfter(known, swept, now - WINDOW)
    ensures Faithful(swept, granted, now)
  {
    hide After, Spaced, Ascending;
  }

  lemma RecentIsRecent(known: seq<int>, granted: seq<int>, now: int)
    requires Faithful(known, granted, now)
    ensures After(known, now - WINDOW) == After(granted, now - WINDOW)
  {
  }

  lemma FaithfulGrant(known: seq<int>, granted: seq<int>, now: int)
    requires Faithful(known, granted, now) && |After(granted, now - WINDOW)| < LIMIT
    ensures Faithful(After(known, now - WINDOW) + [now], granted + [now], now)
  {
    hide After, Spaced, Ascending;
    var recent := After(known, now - WINDOW);
    GrantKeeps(granted, now);
    forall later | later >= now - WINDOW ensures After(recent + [now], later) == After(granted + [now], later) {
      AfterTwice(known, now - WINDOW, later);
      AfterSnoc(recent, now, later);
      AfterSnoc(granted, now, later);
    }
  }

  lemma GrantKeeps(times: seq<int>, now: int)
    requires Ascending(times) && Spaced(times) && |After(times, now - WINDOW)| < LIMIT
    requires forall i :: 0 <= i < |times| ==> times[i] <= now
    ensures Ascending(times + [now]) && Spaced(times + [now])
  {
    if |times| >= LIMIT {
      FewAfter(times, now - WINDOW, LIMIT);
    }
  }
}
