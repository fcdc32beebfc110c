/** What the bracket page makes of its rounds: their order, which tie a name stands for, and how a wing is cut. */
module BracketOutcomes {
  import opened Wrappers
  import opened Sorting
  import opened BracketLabels
  import opened BracketWings

  /** From the first match on: those in the set are kept, in the order they had, and no others. */
  ghost predicate IsCut(kept: seq<PageMatch>, matches: seq<PageMatch>, ids: set<string>) {
    if matches == [] then kept == []
    else if matches[0].name in ids then kept != [] && kept[0] == matches[0] && IsCut(kept[1..], matches[1..], ids)
    else IsCut(kept, matches[1..], ids)
  }

  lemma {:induction false} OneMoreMatch(kept: seq<PageMatch>, matches: seq<PageMatch>, ids: set<string>, m: PageMatch)
    requires IsCut(kept, matches, ids)
    ensures IsCut(kept + if m.name in ids then [m] else [], matches + [m], ids)
  {
    var more := if m.name in ids then [m] else [];
    if matches == [] {
      assert kept + more == more && matches + [m] == [m] && [m][1..] == [];
    } else {
      assert (matches + [m])[1..] == matches[1..] + [m];
      if matches[0].name in ids {
        OneMoreMatch(kept[1..], matches[1..], ids, m);
        assert (kept + more)[1..] == kept[1..] + more;
      } else {
        OneMoreMatch(kept, matches[1..], ids, m);
      }
    }
  }

  lemma {:induction false} MatchesKeepTheirOrder(matches: seq<PageMatch>, ids: set<string>)
    ensures IsCut(MatchesIn(matches, ids), matches, ids)
  {
    if matches != [] {
      var rest, last := matches[..|matches| - 1], matches[|matches| - 1];
      MatchesKeepTheirOrder(rest, ids);
      OneMoreMatch(MatchesIn(rest, ids), rest, ids, last);
      assert matches == rest + [last];
    }
  }

  ghost predicate HasAny(round: PageRound, ids: set<string>) {
    exists m :: m in round.matches && m.name in ids
  }

  ghost predicate IsCutRound(shown: PageRound, round: PageRound, ids: set<string>) {
    shown.order == round.order && IsCut(shown.matches, round.matches, ids)
  }

  /** From the first round on: those with any of the ties are shown, cut down to them, and no others. */
  ghost predicate IsWingOf(wing: seq<PageRound>, rounds: seq<PageRound>, ids: set<string>) {
    if rounds == [] then wing == []
    else if HasAny(rounds[0], ids) then wing != [] && IsCutRound(wing[0], rounds[0], ids) && IsWingOf(wing[1..], rounds[1..], ids)
    else IsWingOf(wing, rounds[1..], ids)
  }

  lemma {:induction false} OneMoreRound(wing: seq<PageRound>, rounds: seq<PageRound>, ids: set<string>, round: PageRound,
                                        shown: PageRound)
    requires IsWingOf(wing, rounds, ids) && IsCutRound(shown, round, ids)
    ensures IsWingOf(wing + if HasAny(round, ids) then [shown] else [], rounds + [round], ids)
  {
    var more := if HasAny(round, ids) then [shown] else [];
    if rounds == [] {
      assert wing + more == more && rounds + [round] == [round] && [round][1..] == [] && more[|more|..] == [];
    } else {
      assert (rounds + [round])[1..] == rounds[1..] + [round];
      if HasAny(rounds[0], ids) {
        OneMoreRound(wing[1..], rounds[1..], ids, round, shown);
        assert (wing + more)[1..] == wing[1..] + more;
      } else {
        OneMoreRound(wing, rounds[1..], ids, round, shown);
      }
    }
  }

  /** A wing keeps the order of its rounds and of the matches in them, and shows no empty round. */
  lemma {:induction false} WingKeepsOrder(rounds: seq<PageRound>, ids: set<string>)
    ensures IsWingOf(Wing(rounds, ids), rounds, ids)
    ensures forall round :: round in Wing(rounds, ids) ==> round.matches != []
  {
    if rounds != [] {
      var rest, last := rounds[..|rounds| - 1], rounds[|rounds| - 1];
      var kept := MatchesIn(last.matches, ids);
      WingKeepsOrder(rest, ids);
      MatchesKeepTheirOrder(last.matches, ids);
      MatchesInHolds(last.matches, ids);
      assert HasAny(last, ids) <==> kept != [] by {
        assert kept != [] ==> kept[0] in kept;
      }
      OneMoreRound(Wing(rest, ids), rest, ids, last, last.(matches := kept));
      assert rounds == rest + [last];
    }
  }

  /** The page goes through its rounds from the first to the last. */
  lemma RoundsGoUp(rounds: seq<PageRound>)
    ensures multiset(Ordered(rounds)) == multiset(rounds)
    ensures forall i, j :: 0 <= i < j < |rounds| ==> Ordered(rounds)[i].order <= Ordered(rounds)[j].order
  {
    SortPermutes(rounds, OrderKey, false);
    SortSorts(rounds, OrderKey, false);
    forall i, j | 0 <= i < j < |rounds| ensures Ordered(rounds)[i].order <= Ordered(rounds)[j].order {
      assert !Before(false, OrderKey(Ordered(rounds)[j]), OrderKey(Ordered(rounds)[i]));
    }
  }

  /** A name stands for the last match that has it. */
  lemma {:induction false} NameStandsForTheLast(matches: seq<PageMatch>, i: int)
    requires 0 <= i < |matches| && forall j :: i < j < |matches| ==> matches[j].name != matches[i].name
    ensures matches[i].name in GraphFrom(matches) && GraphFrom(matches)[matches[i].name] == matches[i]
  {
    var n := |matches| - 1;
    if i < n {
      assert forall j :: i < j < n ==> matches[..n][j] == matches[j];
      NameStandsForTheLast(matches[..n], i);
    }
  }

  lemma {:induction false} OtherNamesStandForNothing(matches: seq<PageMatch>, name: string)
    requires forall m :: m in matches ==> m.name != name
    ensures name !in GraphFrom(matches)
  {
    if matches != [] {
      assert matches == matches[..|matches| - 1] + [matches[|matches| - 1]];
      OtherNamesStandForNothing(matches[..|matches| - 1], name);
    }
  }

  // ----- The layout -----

  /** The match stands in a round before the last. */
  ghost predicate IsEarlier(rounds: seq<PageRound>, m: PageMatch) {
    exists i :: 0 <= i < |rounds| - 1 && m in Ordered(rounds)[i].matches
  }

  lemma EarlierAreShown(rounds: seq<PageRound>, m: PageMatch)
    requires rounds != []
    ensures Shows(Ordered(rounds)[..|rounds| - 1], m) <==> IsEarlier(rounds, m)
  {
    var earlier := Ordered(rounds)[..|rounds| - 1];
    if Shows(earlier, m) {
      var i :| 0 <= i < |earlier| && m in earlier[i].matches;
      assert earlier[i] == Ordered(rounds)[i];
    }
    if i :| 0 <= i < |rounds| - 1 && m in Ordered(rounds)[i].matches {
      assert earlier[i] == Ordered(rounds)[i] && earlier[i] in earlier;
    }
  }

  /** The final is the first match of the last round; without one the page is empty. */
  lemma FinalIsOfTheLastRound(rounds: seq<PageRound>, layout: Layout)
    requires IsLayout(rounds, layout)
    ensures rounds == [] ==> layout == Layout([], [], None, None)
    ensures rounds != [] ==>
              && layout.finalRound.Some? && layout.finalRound.value in rounds
              && (forall round :: round in rounds ==> round.order <= layout.finalRound.value.order)
              && (if layout.finalRound.value.matches == [] then layout.final.None? && layout.left == layout.right == []
                  else layout.final == Some(layout.finalRound.value.matches[0]))
  {
    RoundsGoUp(rounds);
    var ordered := Ordered(rounds);
    if rounds != [] {
      assert ordered[|rounds| - 1] in multiset(ordered);
      forall round | round in rounds ensures round.order <= ordered[|rounds| - 1].order {
        assert round in multiset(ordered);
        var i :| 0 <= i < |ordered| && ordered[i] == round;
      }
    }
  }

  /** Where both slots of the final name a winner, each wing shows the earlier ties that lead into its slot's tie. */
  lemma EachWingLeadsIntoItsSlot(rounds: seq<PageRound>, layout: Layout, left: string, right: string, m: PageMatch)
    requires IsLayout(rounds, layout) && layout.final.Some?
    requires FeederIn(layout.final.value.slotA) == Some(left) && FeederIn(layout.final.value.slotB) == Some(right)
    ensures var g := GraphOf(Ordered(rounds));
            && (Shows(layout.left, m) <==> IsEarlier(rounds, m) && LeadsInto(g, m.name, left))
            && (Shows(layout.right, m) <==> IsEarlier(rounds, m) && LeadsInto(g, m.name, right))
  {
    var ordered := Ordered(rounds);
    assert rounds != [];
    var earlier := ordered[..|rounds| - 1];
    assert FeederTies(layout.final.value) == [left, right];
    var ids, others :| TwoWings(ordered, [left, right], layout, ids, others);
    WingShows(earlier, ids, m);
    WingShows(earlier, others, m);
    EarlierAreShown(rounds, m);
  }

  lemma {:induction false} AllAreNamed(rounds: seq<PageRound>, m: PageMatch)
    requires Shows(rounds, m)
    ensures m.name in NamesOf(AllMatches(rounds))
  {
    var rest, last := rounds[..|rounds| - 1], rounds[|rounds| - 1];
    assert rounds == rest + [last];
    if m !in last.matches {
      AllAreNamed(rest, m);
      var other :| other in AllMatches(rest) && other.name == m.name;
      assert other in AllMatches(rounds);
    }
  }

  /** Where a slot of the final names no winner, every earlier tie is on the left. */
  lemma WithoutTwoFeedersAllIsOnTheLeft(rounds: seq<PageRound>, layout: Layout, m: PageMatch)
    requires IsLayout(rounds, layout) && layout.final.Some?
    requires FeederIn(layout.final.value.slotA).None? || FeederIn(layout.final.value.slotB).None?
    ensures layout.right == [] && (Shows(layout.left, m) <==> IsEarlier(rounds, m))
  {
    assert rounds != [];
    var earlier := Ordered(rounds)[..|rounds| - 1];
    WingShows(earlier, NamesOf(AllMatches(earlier)), m);
    EarlierAreShown(rounds, m);
    if Shows(earlier, m) {
      AllAreNamed(earlier, m);
    }
  }
}
