/**
 * The running maximum with a strict-greater update that both the block
 * selector and the offset search use. Candidates 0, 1, ..., n-1 are scanned
 * in order; the best value starts at a floor and a candidate replaces it
 * only when it is strictly greater. A candidate that is `None` (not a
 * number) never replaces it.
 */
module Argmax {
  import opened Wrappers

  /** True when candidate `v` is a number strictly greater than `bar`. */
  predicate Beats(v: Option<real>, bar: real)
  {
    v.Some? && v.value > bar
  }

  /** The best value after scanning candidates 0 .. n-1 of `s`, starting from `floor`. */
  function Best(s: seq<Option<real>>, n: nat, floor: real): real
    requires n <= |s|
  {
    if n == 0 then floor
    else
      var b := Best(s, n - 1, floor);
      if Beats(s[n - 1], b) then s[n - 1].value else b
  }

  /** The candidate that last replaced the best value, or `None` when nothing beat the floor. */
  function Leader(s: seq<Option<real>>, n: nat, floor: real): (r: Option<nat>)
    requires n <= |s|
    ensures r.Some? ==> r.value < n
  {
    if n == 0 then None
    else if Beats(s[n - 1], Best(s, n - 1, floor)) then Some(n - 1)
    else Leader(s, n - 1, floor)
  }

  /** The best value is the floor or some candidate's value, and no candidate exceeds it. */
  lemma {:induction false} BestIsMaximum(s: seq<Option<real>>, n: nat, floor: real)
    requires n <= |s|
    ensures floor <= Best(s, n, floor)
    ensures forall j :: 0 <= j < n && s[j].Some? ==> s[j].value <= Best(s, n, floor)
    ensures Best(s, n, floor) == floor || exists j :: 0 <= j < n && s[j] == Some(Best(s, n, floor))
  {
    if n > 0 {
      BestIsMaximum(s, n - 1, floor);
    }
  }

  /**
   * The leader is the first candidate whose value is the maximum, provided
   * that maximum is above the floor; there is no leader exactly when no
   * candidate is above the floor.
   */
  lemma {:induction false} LeaderIsFirstMaximum(s: seq<Option<real>>, n: nat, floor: real)
    requires n <= |s|
    ensures Leader(s, n, floor).None? <==> forall j :: 0 <= j < n && s[j].Some? ==> s[j].value <= floor
    ensures Leader(s, n, floor).None? <==> Best(s, n, floor) == floor
    ensures Leader(s, n, floor).Some? ==>
              var k := Leader(s, n, floor).value;
              k < n && s[k] == Some(Best(s, n, floor)) && Best(s, n, floor) > floor
              && forall j :: 0 <= j < k && s[j].Some? ==> s[j].value < Best(s, n, floor)
  {
    BestIsMaximum(s, n, floor);
    if n > 0 {
      LeaderIsFirstMaximum(s, n - 1, floor);
      BestIsMaximum(s, n - 1, floor);
    }
  }

  /**
   * Conversely, a candidate above the floor, at least every value and
   * strictly above every earlier value is the leader.
   */
  lemma LeaderUnique(s: seq<Option<real>>, n: nat, floor: real, k: nat)
    requires k < n <= |s| && s[k].Some? && s[k].value > floor
    requires forall j :: 0 <= j < n && s[j].Some? ==> s[j].value <= s[k].value
    requires forall j :: 0 <= j < k && s[j].Some? ==> s[j].value < s[k].value
    ensures Leader(s, n, floor) == Some(k)
  {
    LeaderIsFirstMaximum(s, n, floor);
    BestIsMaximum(s, n, floor);
  }

  /**
   * The scan depends only on how candidates compare: two sequences with the
   * same missing candidates, ordered alike and with every value above their
   * floors, have the same leader.
   */
  lemma {:induction false} LeaderOrderInvariant(s: seq<Option<real>>, t: seq<Option<real>>, n: nat, fs: real, ft: real)
    requires n <= |s| && n <= |t|
    requires forall j :: 0 <= j < n ==> (s[j].Some? <==> t[j].Some?)
    requires forall j :: 0 <= j < n && s[j].Some? ==> fs < s[j].value && ft < t[j].value
    requires forall i, j :: 0 <= i < n && 0 <= j < n && s[i].Some? && s[j].Some?
                            ==> (s[i].value > s[j].value <==> t[i].value > t[j].value)
    ensures Leader(s, n, fs) == Leader(t, n, ft)
  {
    if n > 0 {
      LeaderOrderInvariant(s, t, n - 1, fs, ft);
      LeaderIsFirstMaximum(s, n - 1, fs);
      LeaderIsFirstMaximum(t, n - 1, ft);
    }
  }
}
