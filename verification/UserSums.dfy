/** Sums over all users of the quantities the pool only keeps in aggregate. */
module UserSums {
  import opened Reals
  import opened StabilityPool

  /** The per-user quantities that are summed. */
  datatype Measure = FreeTokens | ScaledShares | Deposits(scale: real) | Pending(index: real)

  function Of(u: User, m: Measure): real {
    match m
    case FreeTokens => u.free
    case ScaledShares => u.scaled
    case Deposits(scale) => u.scaled * scale
    case Pending(index) => u.scaled * (index - u.snap)
  }

  function Sum(us: seq<User>, m: Measure): real {
    if us == [] then 0.0 else Sum(us[..|us| - 1], m) + Of(us[|us| - 1], m)
  }

  /** Replacing one user changes the sum by the difference of the two entries. */
  lemma {:induction false} SumUpdate(us: seq<User>, k: nat, u: User, m: Measure)
    requires k < |us|
    ensures Sum(us[k := u], m) == Sum(us, m) - Of(us[k], m) + Of(u, m)
  {
    var n := |us| - 1;
    if k < n {
      SumUpdate(us[..n], k, u, m);
      assert us[k := u][..n] == us[..n][k := u];
    } else {
      assert us[k := u][..n] == us[..n];
    }
  }

  lemma SumOne(us: seq<User>, m: Measure)
    requires |us| == 1
    ensures Sum(us, m) == Of(us[0], m)
  {
  }

  /** All deposits together are the scale times all shares: the O(1) form of the total. */
  lemma {:induction false} SumDeposits(us: seq<User>, scale: real)
    ensures Sum(us, Deposits(scale)) == Sum(us, ScaledShares) * scale
  {
    if us != [] {
      var n := |us| - 1;
      SumDeposits(us[..n], scale);
      assert (Sum(us[..n], ScaledShares) + us[n].scaled) * scale
          == Sum(us[..n], ScaledShares) * scale + us[n].scaled * scale;
    }
  }

  /** Raising the index by d owes every share d more. */
  lemma {:induction false} SumPending(us: seq<User>, index: real, d: real)
    ensures Sum(us, Pending(index + d)) == Sum(us, Pending(index)) + Sum(us, ScaledShares) * d
  {
    if us != [] {
      var n := |us| - 1;
      var u := us[n];
      SumPending(us[..n], index, d);
      assert u.scaled * (index + d - u.snap) == u.scaled * (index - u.snap) + u.scaled * d;
      assert (Sum(us[..n], ScaledShares) + u.scaled) * d == Sum(us[..n], ScaledShares) * d + u.scaled * d;
    }
  }

  /** When no entry is negative, no entry exceeds the sum. */
  lemma {:induction false} EntryAtMostSum(us: seq<User>, m: Measure, k: nat)
    requires k < |us|
    requires forall i :: 0 <= i < |us| ==> Of(us[i], m) >= 0.0
    ensures 0.0 <= Of(us[k], m) <= Sum(us, m)
  {
    var n := |us| - 1;
    SumNonNeg(us[..n], m);
    if k < n {
      EntryAtMostSum(us[..n], m, k);
    }
  }

  lemma {:induction false} SumNonNeg(us: seq<User>, m: Measure)
    requires forall i :: 0 <= i < |us| ==> Of(us[i], m) >= 0.0
    ensures Sum(us, m) >= 0.0
  {
    if us != [] {
      SumNonNeg(us[..|us| - 1], m);
    }
  }
}
