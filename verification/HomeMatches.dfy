/** Home and away in the circle schedule: how evenly a full one shares home matches out. */
module HomeMatches {
  import opened Sorting
  import opened H2HSchedule

  function AtHomeFor(id: int): ScheduledMatch -> bool {
    (m: ScheduledMatch) => m.home == id
  }

  ghost function HomeTotal(s: Schedule, id: int): nat {
    if s == [] then 0 else HomeTotal(s[..|s| - 1], id) + Count(s[|s| - 1], AtHomeFor(id))
  }

  /** The first half of the list is at home, but the first pairing changes sides in every other round. */
  predicate AtHome(n: nat, r: nat, a: nat)
    requires n >= 2 && a < n
  {
    var p := PositionOf(n, r, a);
    if p == 0 then r % 2 == 0 else if p == n - 1 then r % 2 == 1 else p < n / 2
  }

  lemma HomeInRound(ids: seq<int>, rounds: nat, start: int, s: Schedule, r: nat, a: nat)
    requires |ids| >= 2 && |ids| % 2 == 0 && Distinct(ids) && IsCircleSchedule(ids, rounds, start, s)
    requires r < rounds && a < |ids|
    ensures Count(s[r], AtHomeFor(ids[a])) == if AtHome(|ids|, r, a) then 1 else 0
  {
    var n, home := |ids|, AtHomeFor(ids[a]);
    var p, j := PositionOf(n, r, a), MatchOf(n, r, a);
    assert IsCircleRound(ids, r, start, s[r]);
    SeatingIsBijective(n, r, a, p);
    RoundIsPerfectMatching(ids, rounds, start, s, r, a, j);
    forall i | 0 <= i < |s[r]| && home(s[r][i]) ensures i == j {
      RoundIsPerfectMatching(ids, rounds, start, s, r, a, i);
    }
    if home(s[r][j]) {
      SoleAt(s[r], home, j);
    } else {
      CountAllOrNone(s[r], home);
    }
  }

  /** The home matches of the first k rounds: on the way up, once in the last place, and from the second place on. */
  function HomesBelow(n: nat, a: nat, k: nat): int {
    if a == 0 then (k + 1) / 2
    else
      var h := n / 2;
      (if a >= h then 0 else if k < h - a then k else h - a)
      + (if a % 2 == 0 && k > n - 1 - a then 1 else 0)
      + (if k <= n - a then 0 else if a >= h && k > h + n - 1 - a then h - 1 else k - (n - a))
  }

  lemma NextHome(n: nat, a: nat, k: nat)
    requires n >= 2 && n % 2 == 0 && a < n && k < n - 1
    ensures HomesBelow(n, a, k + 1) == HomesBelow(n, a, k) + if AtHome(n, k, a) then 1 else 0
  {
    if a > 0 {
      if k < n - a {
        ModUnique(a - 1 + k, n - 1, 0, a - 1 + k);
      } else {
        ModUnique(a - 1 + k, n - 1, 1, a + k - n);
      }
    }
  }

  lemma {:induction false} HomeMatchesBelow(ids: seq<int>, rounds: nat, start: int, s: Schedule, a: nat, k: nat)
    requires |ids| >= 2 && |ids| % 2 == 0 && Distinct(ids) && IsCircleSchedule(ids, rounds, start, s)
    requires a < |ids| && k <= rounds < |ids|
    ensures HomeTotal(s[..k], ids[a]) == HomesBelow(|ids|, a, k)
  {
    if k > 0 {
      HomeMatchesBelow(ids, rounds, start, s, a, k - 1);
      HomeInRound(ids, rounds, start, s, k - 1, a);
      NextHome(|ids|, a, k - 1);
      assert s[..k][..k - 1] == s[..k - 1];
    }
  }

  /**
   A full schedule shares home matches out evenly: a participant is at home n / 2 times if he stands
   at an even index of the list, and once less if at an odd one.
   */
  lemma HomeMatchesAreBalanced(ids: seq<int>, start: int, s: Schedule, a: nat)
    requires |ids| >= 2 && |ids| % 2 == 0 && Distinct(ids) && IsCircleSchedule(ids, |ids| - 1, start, s)
    requires a < |ids|
    ensures HomeTotal(s, ids[a]) == |ids| / 2 - a % 2
  {
    assert HomesBelow(|ids|, a, |ids| - 1) == |ids| / 2 - a % 2;
    HomeMatchesBelow(ids, |ids| - 1, start, s, a, |ids| - 1);
    assert s[..|s|] == s;
  }
}
