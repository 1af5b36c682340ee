/** The order in which the source walks its price maps: `std::map` with `greater` for bids and with
    `less` for asks, so that the best price always comes first. */
module Ordered {
  /** `x` is a strictly better price than `y` on the given side. */
  predicate Better(buy: bool, x: int, y: int) {
    if buy then x > y else x < y
  }

  lemma {:induction false} BestExists(buy: bool, s: set<int>)
    requires s != {}
    ensures exists m :: m in s && forall x :: x in s ==> x == m || Better(buy, m, x)
    decreases |s|
  {
    assert (forall e :: e !in s) ==> s == {};
    var e :| e in s;
    var rest := s - {e};
    assert forall x :: x in s ==> x == e || x in rest;
    if rest != {} {
      BestExists(buy, rest);
      var m :| m in rest && forall x :: x in rest ==> x == m || Better(buy, m, x);
      var best := if Better(buy, e, m) then e else m;
      assert best in s && forall x :: x in s ==> x == best || Better(buy, best, x);
    }
  }

  /** `begin()` of a price map: the greatest bid, the least ask. */
  function BestOf(buy: bool, s: set<int>): (m: int)
    requires s != {}
    ensures m in s && forall x :: x in s ==> x == m || Better(buy, m, x)
  {
    BestExists(buy, s);
    var m :| m in s && forall x :: x in s ==> x == m || Better(buy, m, x);
    m
  }

  /** The first `n` keys in iteration order. */
  function TopKeys(buy: bool, s: set<int>, n: nat): (r: seq<int>)
    ensures |r| <= n && |r| <= |s|
    ensures forall x :: x in r ==> x in s
  {
    if s == {} || n == 0 then [] else [BestOf(buy, s)] + TopKeys(buy, s - {BestOf(buy, s)}, n - 1)
  }

  /** Iteration visits strictly worse and worse prices, and every price it has not reached after `n`
      steps is worse than all it has. */
  lemma {:induction false} TopKeysBestFirst(buy: bool, s: set<int>, n: nat)
    ensures var r := TopKeys(buy, s, n);
      && |r| == (if n <= |s| then n else |s|)
      && (forall i, j :: 0 <= i < j < |r| ==> Better(buy, r[i], r[j]))
      && (forall i, x :: 0 <= i < |r| && x in s && x !in r ==> Better(buy, r[i], x))
  {
    if s != {} && n > 0 {
      var m := BestOf(buy, s);
      TopKeysBestFirst(buy, s - {m}, n - 1);
      var r, t := TopKeys(buy, s, n), TopKeys(buy, s - {m}, n - 1);
      assert r == [m] + t;
      forall i, j | 0 <= i < j < |r| ensures Better(buy, r[i], r[j]) {
        assert r[j] == t[j - 1] && t[j - 1] in s - {m};
        if i > 0 { assert r[i] == t[i - 1]; }
      }
      forall i, x | 0 <= i < |r| && x in s && x !in r ensures Better(buy, r[i], x) {
        assert r[0] == m && x != m && x in s - {m} && x !in t;
        if i > 0 { assert r[i] == t[i - 1]; }
      }
    }
  }

  /** One step of a walk that has visited `done` and still has `rest` to visit. */
  lemma TopKeysStep(buy: bool, s: set<int>, n: nat, done: seq<int>, rest: set<int>)
    requires |done| < n && rest != {}
    requires done + TopKeys(buy, rest, n - |done|) == TopKeys(buy, s, n)
    ensures var m := BestOf(buy, rest);
      done + [m] + TopKeys(buy, rest - {m}, n - |done| - 1) == TopKeys(buy, s, n)
  {
    var m := BestOf(buy, rest);
    var t := TopKeys(buy, rest - {m}, n - |done| - 1);
    assert TopKeys(buy, rest, n - |done|) == [m] + t;
    assert done + ([m] + t) == done + [m] + t;
  }

  lemma TopKeysEnd(buy: bool, s: set<int>, n: nat, done: seq<int>, rest: set<int>)
    requires |done| <= n && (rest == {} || |done| == n)
    requires done + TopKeys(buy, rest, n - |done|) == TopKeys(buy, s, n)
    ensures done == TopKeys(buy, s, n)
  {
  }
}
