/**
 The circle-method scheduler of the head-to-head league.

 The program keeps a list that it turns once per round. The specification is a
 closed form that never mentions the list: `PlayerAt` says who stands where in
 round r, and `RoundOf` says in which round two participants meet.
 */
module H2HSchedule {
  import opened Wrappers

  datatype ScheduledMatch = ScheduledMatch(roundNumber: int, home: int, away: int)

  datatype ScheduleError = OddOrTooFew | DuplicateManagers | RoundsOutOfRange

  type Schedule = seq<seq<ScheduledMatch>>

  ghost predicate Distinct(ids: seq<int>) {
    forall a, b :: 0 <= a < b < |ids| ==> ids[a] != ids[b]
  }

  // ----- The closed form -----

  /** The participant (as an index into the input) at position p of round r. */
  function PlayerAt(n: nat, r: nat, p: nat): (a: nat)
    requires n >= 2
    ensures p < n ==> a < n
  {
    if p == 0 then 0 else 1 + (p - 1 - r) % (n - 1)
  }

  /** The round in which participants a < b meet: half of -(1 + their sum), modulo the odd n - 1. */
  function RoundOf(n: nat, a: nat, b: nat): (r: nat)
    requires n >= 2 && n % 2 == 0 && a < b < n
    ensures r < n - 1
  {
    var sum := if a == 0 then 2 * (b - 1) else (a - 1) + (b - 1);
    (-1 - sum * (n / 2)) % (n - 1)
  }

  ghost predicate IsCircleSchedule(ids: seq<int>, rounds: nat, start: int, s: Schedule)
    requires |ids| >= 2
  {
    |s| == rounds && forall r :: 0 <= r < rounds ==> IsCircleRound(ids, r, start, s[r])
  }

  ghost predicate IsCircleRound(ids: seq<int>, r: nat, start: int, matches: seq<ScheduledMatch>)
    requires |ids| >= 2
  {
    && |matches| == |ids| / 2
    && forall i :: 0 <= i < |matches| ==> matches[i] == MatchAt(ids, r, start, i)
  }

  function MatchAt(ids: seq<int>, r: nat, start: int, i: nat): ScheduledMatch
    requires |ids| >= 2 && i < |ids| / 2
  {
    var n := |ids|;
    var first, second := ids[PlayerAt(n, r, i)], ids[PlayerAt(n, r, n - 1 - i)];
    if r % 2 == 1 && i == 0
    then ScheduledMatch(start + r, second, first)
    else ScheduledMatch(start + r, first, second)
  }

  // ----- The program -----

  method HasDuplicates(ids: seq<int>) returns (found: bool)
    ensures found <==> !Distinct(ids)
  {
    var seen: set<int> := {};
    found := false;
    for k := 0 to |ids|
      invariant seen == set j | 0 <= j < k :: ids[j]
      invariant !found
      invariant Distinct(ids[..k])
    {
      if ids[k] in seen {
        return true;
      }
      seen := seen + {ids[k]};
    }
    assert ids[..|ids|] == ids;
  }

  /** One list, turned by one place at the end of every round. */
  method GenerateRoundRobin(ids: seq<int>, rounds: int, start: int)
    returns (result: Result<Schedule, ScheduleError>)
    ensures result == Err(OddOrTooFew) <==> |ids| < 2 || |ids| % 2 == 1
    ensures result == Err(DuplicateManagers) <==> !(|ids| < 2 || |ids| % 2 == 1) && !Distinct(ids)
    ensures result.Ok? <==>
            |ids| >= 2 && |ids| % 2 == 0 && Distinct(ids) && 1 <= rounds <= |ids| - 1
    ensures result.Ok? ==> IsCircleSchedule(ids, rounds, start, result.value)
  {
    if |ids| < 2 || |ids| % 2 != 0 {
      return Err(OddOrTooFew);
    }
    var duplicates := HasDuplicates(ids);
    if duplicates {
      return Err(DuplicateManagers);
    }
    if !(1 <= rounds <= |ids| - 1) {
      return Err(RoundsOutOfRange);
    }
    var n := |ids|;
    var rotation := ids;
    var schedule: Schedule := [];
    assert forall p :: 0 <= p < n ==> PlayerAt(n, 0, p) == p by {
      forall p | 0 < p < n ensures PlayerAt(n, 0, p) == p { ModUnique(p - 1, n - 1, 0, p - 1); }
    }
    for offset := 0 to rounds
      invariant |rotation| == n
      invariant forall p :: 0 <= p < n ==> rotation[p] == ids[PlayerAt(n, offset, p)]
      invariant IsCircleSchedule(ids, offset, start, schedule)
    {
      var matches: seq<ScheduledMatch> := [];
      for index := 0 to n / 2
        invariant |matches| == index
        invariant forall i :: 0 <= i < index ==> matches[i] == MatchAt(ids, offset, start, i)
      {
        var first, second := rotation[index], rotation[n - (index + 1)];
        if offset % 2 == 1 && index == 0 {
          first, second := second, first;
        }
        matches := matches + [ScheduledMatch(start + offset, first, second)];
      }
      schedule := schedule + [matches];
      rotation := Turn(ids, rotation, offset);
    }
    result := Ok(schedule);
  }

  function Turn(ids: seq<int>, rotation: seq<int>, ghost r: nat): (turned: seq<int>)
    requires |ids| == |rotation| >= 2
    requires forall p :: 0 <= p < |ids| ==> rotation[p] == ids[PlayerAt(|ids|, r, p)]
    ensures |turned| == |ids|
    ensures forall p :: 0 <= p < |ids| ==> turned[p] == ids[PlayerAt(|ids|, r + 1, p)]
  {
    var last := |rotation| - 1;
    var turned := [rotation[0], rotation[last]] + rotation[1..last];
    assert forall p :: 0 <= p < |ids| ==> turned[p] == ids[PlayerAt(|ids|, r + 1, p)] by {
      forall p | 0 <= p < |ids| ensures turned[p] == ids[PlayerAt(|ids|, r + 1, p)] {
        if p == 0 {
          assert turned[p] == rotation[0] == ids[PlayerAt(|ids|, r, 0)];
        } else {
          TurnedPosition(|ids|, r, p);
          var source := if p == 1 then last else p - 1;
          assert turned[p] == rotation[source] == ids[PlayerAt(|ids|, r, source)];
        }
      }
    }
    turned
  }

  // ----- Modular arithmetic -----

  lemma OnlyZeroMultiple(k: int, m: int)
    requires -m < k * m < m
    ensures k == 0
  {
    if k >= 1 {
    } else if k <= -1 {
    }
  }

  lemma ModUnique(x: int, m: int, q: int, rem: int)
    requires m > 0 && x == q * m + rem && 0 <= rem < m
    ensures x % m == rem && x / m == q
  {
    var d, t := x / m, x % m;
    assert x == d * m + t;
    assert (d - q) * m == d * m - q * m == rem - t;
    OnlyZeroMultiple(d - q, m);
  }

  lemma ModMultiple(x: int, m: int, k: int)
    requires m > 0
    ensures (x + k * m) % m == x % m
  {
    ModUnique(x + k * m, m, x / m + k, x % m);
  }

  lemma ModCongruent(x: int, y: int, m: int)
    requires m > 0
    ensures x % m == y % m <==> (x - y) % m == 0
  {
    var q := x / m - y / m;
    if x % m == y % m {
      ModUnique(x - y, m, q, 0);
    }
    if (x - y) % m == 0 {
      ModMultiple(y, m, (x - y) / m);
    }
  }

  /** One turn of the list moves the closed form on by one round. */
  lemma TurnedPosition(n: nat, r: nat, p: nat)
    requires n >= 2 && 1 <= p < n
    ensures PlayerAt(n, r + 1, p) == PlayerAt(n, r, if p == 1 then n - 1 else p - 1)
  {
    if p == 1 {
      ModMultiple(-1 - r, n - 1, 1);
      assert n - 1 - 1 - r == (-1 - r) + 1 * (n - 1);
    }
  }

  /** Halving modulo the odd number 2 h - 1: sums congruent to -2 - 2 r give back r. */
  lemma HalfOfSum(sum: int, h: int, r: int, k: int)
    requires h >= 1 && 0 <= r < 2 * h - 1
    requires sum == -2 - 2 * r + k * (2 * h - 1)
    ensures (-1 - sum * h) % (2 * h - 1) == r
  {
    var m := 2 * h - 1;
    assert sum * h == (-2 - 2 * r) * h + k * m * h;
    assert (-2 - 2 * r) * h == -(1 + r) * (m + 1);
    assert -1 - sum * h == r + (1 + r - k * h) * m;
    ModUnique(-1 - sum * h, m, 1 + r - k * h, r);
  }

  // ----- Who stands where -----

  function PositionOf(n: nat, r: nat, a: nat): (p: nat)
    requires n >= 2 && a < n
    ensures p < n
  {
    if a == 0 then 0 else 1 + (a - 1 + r) % (n - 1)
  }

  /** Every round seats every participant at exactly one place. */
  lemma SeatingIsBijective(n: nat, r: nat, a: nat, p: nat)
    requires n >= 2 && a < n && p < n
    ensures PlayerAt(n, r, p) == a <==> p == PositionOf(n, r, a)
  {
    if a > 0 && p > 0 {
      var m := n - 1;
      ModCongruent(p - 1 - r, a - 1, m);
      ModCongruent(p - 1, a - 1 + r, m);
      ModUnique(a - 1, m, 0, a - 1);
      ModUnique(p - 1, m, 0, p - 1);
    }
  }

  ghost predicate Meet(n: nat, r: nat, a: nat, b: nat)
    requires n >= 2 && a < n && b < n
  {
    PositionOf(n, r, a) + PositionOf(n, r, b) == n - 1
  }

  lemma OthersMeetOnly(h: int, r: nat, a: nat, b: nat)
    requires h >= 1 && 0 < a < b < 2 * h && r < 2 * h - 1
    requires Meet(2 * h, r, a, b)
    ensures r == (-1 - ((a - 1) + (b - 1)) * h) % (2 * h - 1)
  {
    var m := 2 * h - 1;
    var x, y := (a - 1 + r) / m, (b - 1 + r) / m;
    assert (x + y + 1) * m == x * m + y * m + m;
    HalfOfSum((a - 1) + (b - 1), h, r, x + y + 1);
  }

  lemma MeetOnlyInRound(n: nat, r: nat, a: nat, b: nat)
    requires n >= 2 && n % 2 == 0 && a < b < n && r < n - 1
    requires Meet(n, r, a, b)
    ensures r == RoundOf(n, a, b)
  {
    var h := n / 2;
    if a == 0 {
      var m := 2 * h - 1;
      var y := (b - 1 + r) / m;
      assert (2 * y + 2) * m == 2 * (y * m) + 2 * m;
      HalfOfSum(2 * (b - 1), h, r, 2 * y + 2);
    } else {
      OthersMeetOnly(h, r, a, b);
    }
  }

  /** The converse of HalfOfSum. */
  lemma DoubleOfHalf(sum: int, h: int) returns (k: int)
    requires h >= 1
    ensures sum + 2 * ((-1 - sum * h) % (2 * h - 1)) == -2 + k * (2 * h - 1)
  {
    var m := 2 * h - 1;
    var q, r := (-1 - sum * h) / m, (-1 - sum * h) % m;
    assert r == -1 - sum * h - q * m;
    k := -sum - 2 * q;
    assert 2 * (sum * h) == sum * m + sum;
    assert k * m == -(sum * m) - 2 * (q * m);
  }

  lemma MeetInRound(n: nat, a: nat, b: nat)
    requires n >= 2 && n % 2 == 0 && a < b < n
    ensures Meet(n, RoundOf(n, a, b), a, b)
  {
    var h, r := n / 2, RoundOf(n, a, b);
    var sum := if a == 0 then 2 * (b - 1) else (a - 1) + (b - 1);
    var k := DoubleOfHalf(sum, h);
    assert r == (-1 - sum * h) % (2 * h - 1);
    if a == 0 {
      var x := b - 1 + r;
      ResidueSum(x, x, n - 1, k);
      if x % (n - 1) + 1 != n - 1 {
        SingleMultiple(2 * (x % (n - 1) + 1), k - x / (n - 1) - x / (n - 1), n - 1);
      }
    } else {
      OthersMeet(n, r, a, b, k);
    }
  }

  lemma OthersMeet(n: nat, r: nat, a: nat, b: nat, k: int)
    requires 0 < a < b < n && (a - 1) + (b - 1) + 2 * r == -2 + k * (n - 1)
    ensures Meet(n, r, a, b)
  {
    var x, y := a - 1 + r, b - 1 + r;
    ResidueSum(x, y, n - 1, k);
    ModCongruent(b - 1 + r, a - 1 + r, n - 1);
    ModUnique(b - a, n - 1, 0, b - a);
    SingleMultiple(x % (n - 1) + y % (n - 1) + 2, k - x / (n - 1) - y / (n - 1), n - 1);
  }

  lemma ResidueSum(x: int, y: int, m: int, k: int)
    requires m > 0 && x + y == -2 + k * m
    ensures x % m + y % m + 2 == (k - x / m - y / m) * m
  {
    assert x == (x / m) * m + x % m;
    assert y == (y / m) * m + y % m;
  }

  lemma SingleMultiple(t: int, k: int, m: int)
    requires 0 < t < 2 * m && t == k * m
    ensures t == m
  {
    assert (k - 1) * m == t - m;
    OnlyZeroMultiple(k - 1, m);
  }

  // ----- What the schedule promises -----

  ghost predicate Plays(match_: ScheduledMatch, id: int) {
    id == match_.home || id == match_.away
  }

  ghost predicate IsMeeting(match_: ScheduledMatch, x: int, y: int) {
    (match_.home == x && match_.away == y) || (match_.home == y && match_.away == x)
  }

  /** The one match of round r in which participant a plays. */
  function MatchOf(n: nat, r: nat, a: nat): (i: nat)
    requires n >= 2 && n % 2 == 0 && a < n
    ensures i < n / 2
  {
    var p := PositionOf(n, r, a);
    if p < n / 2 then p else n - 1 - p
  }

  /** Every round is a perfect matching, carries its own number, and pairs nobody with himself. */
  lemma RoundIsPerfectMatching(ids: seq<int>, rounds: nat, start: int, s: Schedule, r: nat, a: nat, i: nat)
    requires |ids| >= 2 && |ids| % 2 == 0 && Distinct(ids) && IsCircleSchedule(ids, rounds, start, s)
    requires r < rounds && a < |ids| && i < |ids| / 2
    ensures |s[r]| == |ids| / 2
    ensures Plays(s[r][i], ids[a]) <==> i == MatchOf(|ids|, r, a)
    ensures s[r][i].roundNumber == start + r
    ensures s[r][i].home != s[r][i].away && s[r][i].home in ids && s[r][i].away in ids
  {
    var n := |ids|;
    assert IsCircleRound(ids, r, start, s[r]);
    SeatingIsBijective(n, r, a, i);
    SeatingIsBijective(n, r, a, n - 1 - i);
    SeatingIsBijective(n, r, PlayerAt(n, r, i), i);
    SeatingIsBijective(n, r, PlayerAt(n, r, i), n - 1 - i);
  }

  /** Two participants meet in one round only, and the closed form names it. */
  lemma PairMeetsOnlyInItsRound(ids: seq<int>, rounds: nat, start: int, s: Schedule, a: nat, b: nat, r: nat)
    requires |ids| >= 2 && |ids| % 2 == 0 && Distinct(ids) && IsCircleSchedule(ids, rounds, start, s)
    requires a < b < |ids| && r < rounds <= |ids| - 1
    ensures (exists i :: 0 <= i < |s[r]| && IsMeeting(s[r][i], ids[a], ids[b])) <==> r == RoundOf(|ids|, a, b)
  {
    var n := |ids|;
    assert IsCircleRound(ids, r, start, s[r]);
    var p := PositionOf(n, r, a);
    SeatingIsBijective(n, r, a, p);
    if r == RoundOf(n, a, b) {
      MeetInRound(n, a, b);
      SeatingIsBijective(n, r, b, n - 1 - p);
      assert IsMeeting(s[r][MatchOf(n, r, a)], ids[a], ids[b]);
    }
    forall i | 0 <= i < |s[r]| && IsMeeting(s[r][i], ids[a], ids[b])
      ensures r == RoundOf(n, a, b)
    {
      RoundIsPerfectMatching(ids, rounds, start, s, r, a, i);
      RoundIsPerfectMatching(ids, rounds, start, s, r, b, i);
      assert PlayerAt(n, r, n - 1 - p) == b;
      SeatingIsBijective(n, r, b, n - 1 - p);
      MeetOnlyInRound(n, r, a, b);
    }
  }

  /** No unordered pair meets twice, in any prefix of the schedule. */
  lemma NoPairMeetsTwice(ids: seq<int>, rounds: nat, start: int, s: Schedule)
    requires |ids| >= 2 && |ids| % 2 == 0 && Distinct(ids) && rounds <= |ids| - 1
    requires IsCircleSchedule(ids, rounds, start, s)
    ensures forall x, y, r1, i1, r2, i2 ::
              0 <= r1 < |s| && 0 <= i1 < |s[r1]| && IsMeeting(s[r1][i1], x, y) &&
              0 <= r2 < |s| && 0 <= i2 < |s[r2]| && IsMeeting(s[r2][i2], x, y)
              ==> r1 == r2 && i1 == i2
  {
    forall x, y, r1, i1, r2, i2 |
      0 <= r1 < |s| && 0 <= i1 < |s[r1]| && IsMeeting(s[r1][i1], x, y) &&
      0 <= r2 < |s| && 0 <= i2 < |s[r2]| && IsMeeting(s[r2][i2], x, y)
      ensures r1 == r2 && i1 == i2
    {
      assert IsCircleRound(ids, r1, start, s[r1]) && IsCircleRound(ids, r2, start, s[r2]);
      RoundIsPerfectMatching(ids, rounds, start, s, r1, 0, i1);
      var a :| 0 <= a < |ids| && ids[a] == x;
      var b :| 0 <= b < |ids| && ids[b] == y;
      var low, high := if a < b then a else b, if a < b then b else a;
      assert IsMeeting(s[r1][i1], ids[low], ids[high]) && IsMeeting(s[r2][i2], ids[low], ids[high]);
      PairMeetsOnlyInItsRound(ids, rounds, start, s, low, high, r1);
      PairMeetsOnlyInItsRound(ids, rounds, start, s, low, high, r2);
      RoundIsPerfectMatching(ids, rounds, start, s, r1, a, i1);
      RoundIsPerfectMatching(ids, rounds, start, s, r1, a, i2);
    }
  }

  /** A full schedule lets every pair meet; with NoPairMeetsTwice, exactly once. */
  lemma FullScheduleIsRoundRobin(ids: seq<int>, start: int, s: Schedule, a: nat, b: nat)
    requires |ids| >= 2 && |ids| % 2 == 0 && Distinct(ids) && IsCircleSchedule(ids, |ids| - 1, start, s)
    requires a < b < |ids|
    ensures exists r, i :: 0 <= r < |s| && 0 <= i < |s[r]| && IsMeeting(s[r][i], ids[a], ids[b])
  {
    var r := RoundOf(|ids|, a, b);
    PairMeetsOnlyInItsRound(ids, |ids| - 1, start, s, a, b, r);
    var i :| 0 <= i < |s[r]| && IsMeeting(s[r][i], ids[a], ids[b]);
    assert 0 <= r < |s|;
  }
}
