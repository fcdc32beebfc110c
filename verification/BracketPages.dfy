/** A well-formed bracket on the page: its two wings share out every tie but the final. */
module BracketPages {
  import opened Wrappers
  import opened Sorting
  import opened CupBracket
  import opened BracketLabels
  import opened BracketWings
  import PublishedBrackets

  function PageMatchOf(tie: Tie): PageMatch {
    PageMatch(TieName(tie.id), SlotLabel(tie.first), SlotLabel(tie.second))
  }

  function PageRoundOf(round: Round): PageRound {
    PageRound(round.order, seq(|round.ties|, j requires 0 <= j < |round.ties| => PageMatchOf(round.ties[j])))
  }

  function PageOf(b: Bracket): (page: seq<PageRound>)
    ensures |page| == |b.rounds|
  {
    seq(|b.rounds|, k requires 0 <= k < |b.rounds| => PageRoundOf(b.rounds[k]))
  }

  function WinnerNames(slot: Slot): seq<string> {
    match slot case FromSeed(_) => [] case WinnerOf(tie) => [TieName(tie)]
  }

  /** The feeders the page reads are the winners the bracket named, in slot order. */
  lemma FeedersOfTie(tie: Tie)
    ensures FeederTies(PageMatchOf(tie)) == WinnerNames(tie.first) + WinnerNames(tie.second)
  {
    LabelsReadBack(tie.first);
    LabelsReadBack(tie.second);
  }

  lemma FeederSlot(tie: Tie, name: string) returns (side: Side)
    requires name in FeederTies(PageMatchOf(tie))
    ensures tie.At(side).WinnerOf? && TieName(tie.At(side).tie) == name
  {
    FeedersOfTie(tie);
    side := if name in WinnerNames(tie.first) then A else B;
  }

  // ----- The graph of a bracket -----

  ghost predicate IsNamed(b: Bracket, k: nat, j: nat, name: string) {
    b.HasTie(k, j) && TieName(b.TieAt(k, j).id) == name
  }

  lemma NamedOnce(b: Bracket, k: nat, j: nat, k': nat, j': nat, name: string)
    requires b.UniqueIds() && IsNamed(b, k, j, name) && IsNamed(b, k', j', name)
    ensures k == k' && j == j'
  {
    NamesAreDistinct(b.TieAt(k, j).id, b.TieAt(k', j').id);
  }

  lemma {:induction false} GraphHolds(matches: seq<PageMatch>)
    ensures forall x :: x in GraphFrom(matches) ==> GraphFrom(matches)[x] in matches && GraphFrom(matches)[x].name == x
    ensures forall m :: m in matches ==> m.name in GraphFrom(matches)
  {
    if matches != [] {
      assert matches == matches[..|matches| - 1] + [matches[|matches| - 1]];
      GraphHolds(matches[..|matches| - 1]);
    }
  }

  lemma {:induction false} AllMatchesShown(rounds: seq<PageRound>, m: PageMatch)
    ensures m in AllMatches(rounds) <==> Shows(rounds, m)
  {
    if rounds != [] {
      assert rounds == rounds[..|rounds| - 1] + [rounds[|rounds| - 1]];
      AllMatchesShown(rounds[..|rounds| - 1], m);
    }
  }

  lemma ShownIsATie(b: Bracket, m: PageMatch) returns (k: nat, j: nat)
    requires Shows(PageOf(b), m)
    ensures b.HasTie(k, j) && m == PageMatchOf(b.TieAt(k, j))
  {
    var round :| round in PageOf(b) && m in round.matches;
    k :| k < |PageOf(b)| && PageOf(b)[k] == round;
    j :| j < |round.matches| && round.matches[j] == m;
  }

  lemma GraphAt(b: Bracket, k: nat, j: nat)
    requires b.UniqueIds() && b.HasTie(k, j)
    ensures var name := TieName(b.TieAt(k, j).id);
            name in GraphOf(PageOf(b)) && GraphOf(PageOf(b))[name] == PageMatchOf(b.TieAt(k, j))
  {
    var m := PageMatchOf(b.TieAt(k, j));
    assert PageOf(b)[k].matches[j] == PageMatchOf(b.TieAt(k, j));
    assert PageOf(b)[k] in PageOf(b);
    AllMatchesShown(PageOf(b), m);
    GraphHolds(AllMatches(PageOf(b)));
    var other := GraphOf(PageOf(b))[m.name];
    AllMatchesShown(PageOf(b), other);
    var k', j' := ShownIsATie(b, other);
    NamedOnce(b, k, j, k', j', m.name);
  }

  lemma InGraph(b: Bracket, name: string) returns (k: nat, j: nat)
    requires name in GraphOf(PageOf(b))
    ensures IsNamed(b, k, j, name)
  {
    GraphHolds(AllMatches(PageOf(b)));
    var m := GraphOf(PageOf(b))[name];
    AllMatchesShown(PageOf(b), m);
    k, j := ShownIsATie(b, m);
  }

  // ----- It is a tree -----

  ghost function LevelOf(b: Bracket, name: string): int {
    if exists k: nat, j: nat :: IsNamed(b, k, j, name)
    then var k: nat, j: nat :| IsNamed(b, k, j, name); k
    else -1
  }

  lemma LevelIs(b: Bracket, k: nat, j: nat, name: string)
    requires b.UniqueIds() && IsNamed(b, k, j, name)
    ensures LevelOf(b, name) == k
  {
    var k': nat, j': nat :| IsNamed(b, k', j', name) && LevelOf(b, name) == k';
    NamedOnce(b, k, j, k', j', name);
  }

  lemma EarlierTie(b: Bracket, k: nat, j: nat, side: Side) returns (k': nat, j': nat)
    requires b.EarlierFeeders() && b.HasTie(k, j) && b.TieAt(k, j).At(side).WinnerOf?
    ensures k' < k && b.HasTie(k', j') && b.TieAt(k', j').id == b.TieAt(k, j).At(side).tie
  {
    var id := b.TieAt(k, j).At(side).tie;
    assert b.Plays(id, k);
    k', j' :| k' < k && b.HasTie(k', j') && b.TieAt(k', j').id == id;
  }

  /** A feeder on the page is a winner slot of the bracket, filled from an earlier round. */
  lemma FeedIsASlot(b: Bracket, feeder: string, tie: string) returns (k: nat, j: nat, side: Side)
    requires b.UniqueIds() && b.EarlierFeeders() && Feeds(GraphOf(PageOf(b)), feeder, tie)
    ensures IsNamed(b, k, j, tie) && b.TieAt(k, j).At(side).WinnerOf? && TieName(b.TieAt(k, j).At(side).tie) == feeder
    ensures feeder in GraphOf(PageOf(b)) && LevelOf(b, feeder) < LevelOf(b, tie) == k
  {
    k, j := InGraph(b, tie);
    GraphAt(b, k, j);
    side := FeederSlot(b.TieAt(k, j), feeder);
    LevelIs(b, k, j, tie);
    var k', j' := EarlierTie(b, k, j, side);
    GraphAt(b, k', j');
    LevelIs(b, k', j', feeder);
  }

  lemma ConsumedFeeds(b: Bracket, id: TieId) returns (consumer: string)
    requires b.UniqueIds() && b.Consumed(id)
    ensures Feeds(GraphOf(PageOf(b)), TieName(id), consumer)
  {
    var k: nat, j: nat, side: Side :| b.HasTie(k, j) && b.TieAt(k, j).At(side) == WinnerOf(id);
    GraphAt(b, k, j);
    FeedersOfTie(b.TieAt(k, j));
    consumer := TieName(b.TieAt(k, j).id);
  }

  lemma LastRoundIsTheFinal(b: Bracket, last: TieId)
    requires b.WellFormed() && b.SingleFinal(last)
    ensures b.HasTie(|b.rounds| - 1, 0) && b.TieAt(|b.rounds| - 1, 0).id == last
  {}

  lemma PageIsATree(b: Bracket, last: TieId)
    requires b.WellFormed() && b.SingleFinal(last)
    ensures IsTree(GraphOf(PageOf(b)), TieName(last), (name: string) => LevelOf(b, name))
  {
    var g, level := GraphOf(PageOf(b)), (name: string) => LevelOf(b, name);
    LastRoundIsTheFinal(b, last);
    GraphAt(b, |b.rounds| - 1, 0);
    LevelIs(b, |b.rounds| - 1, 0, TieName(last));
    forall feeder, tie | Feeds(g, feeder, tie)
      ensures feeder in g && level(feeder) < level(tie) <= level(TieName(last))
    {
      var k, j, side := FeedIsASlot(b, feeder, tie);
    }
    forall feeder, tie, other | Feeds(g, feeder, tie) && Feeds(g, feeder, other) ensures tie == other {
      var k, j, side := FeedIsASlot(b, feeder, tie);
      var k', j', side' := FeedIsASlot(b, feeder, other);
      NamesAreDistinct(b.TieAt(k, j).At(side).tie, b.TieAt(k', j').At(side').tie);
    }
    forall name | name in g && name != TieName(last) ensures exists consumer :: Feeds(g, name, consumer) {
      var k, j := InGraph(b, name);
      var consumer := ConsumedFeeds(b, b.TieAt(k, j).id);
    }
  }

  // ----- The rounds may arrive in any order -----

  ghost predicate Ascending(rounds: seq<PageRound>) {
    forall i, j :: 0 <= i < j < |rounds| ==> rounds[i].order < rounds[j].order
  }

  lemma HeadsAgree(a: seq<PageRound>, b: seq<PageRound>)
    requires multiset(a) == multiset(b) && a != [] && b != [] && Ascending(a)
    requires forall i :: 0 <= i < |b| ==> b[0].order <= b[i].order
    ensures a[0] == b[0]
  {
    assert a[0] in multiset(b) && b[0] in multiset(a);
    var i :| 0 <= i < |a| && a[i] == b[0];
    assert forall l :: 0 < l < |a| ==> a[0].order < a[l].order;
  }

  lemma TailOf(a: seq<PageRound>)
    requires a != []
    ensures multiset(a[1..]) == multiset(a) - multiset{a[0]}
  {
    assert a == [a[0]] + a[1..];
  }

  lemma {:induction false} AscendingIsUnique(a: seq<PageRound>, b: seq<PageRound>)
    requires multiset(a) == multiset(b) && Ascending(a) && (forall i, j :: 0 <= i <= j < |b| ==> b[i].order <= b[j].order)
    ensures a == b
  {
    assert |multiset(a)| == |multiset(b)|;
    if a != [] {
      HeadsAgree(a, b);
      TailOf(a);
      TailOf(b);
      AscendingIsUnique(a[1..], b[1..]);
      assert a == [a[0]] + a[1..] && b == [b[0]] + b[1..];
    }
  }

  lemma OrderedIsThePage(b: Bracket, rounds: seq<PageRound>)
    requires b.WellFormed() && multiset(rounds) == multiset(PageOf(b))
    ensures Ordered(rounds) == PageOf(b)
  {
    SortPermutes(rounds, OrderKey, false);
    SortSorts(rounds, OrderKey, false);
    var ordered := Ordered(rounds);
    forall i, j | 0 <= i < j < |ordered| ensures ordered[i].order <= ordered[j].order {
      assert !Before(false, OrderKey(ordered[j]), OrderKey(ordered[i]));
    }
    AscendingIsUnique(PageOf(b), ordered);
  }

  // ----- The wings -----

  lemma ShownEarlier(b: Bracket, n: nat, k: nat, j: nat)
    requires b.UniqueIds() && b.HasTie(k, j) && n <= |b.rounds|
    ensures Shows(PageOf(b)[..n], PageMatchOf(b.TieAt(k, j))) <==> k < n
  {
    var m := PageMatchOf(b.TieAt(k, j));
    if k < n {
      assert PageOf(b)[..n][k].matches[j] == m && PageOf(b)[..n][k] in PageOf(b)[..n];
    }
    if Shows(PageOf(b)[..n], m) {
      var round :| round in PageOf(b)[..n] && m in round.matches;
      var k': nat :| k' < n && PageOf(b)[k'] == round;
      var j': nat :| j' < |round.matches| && round.matches[j'] == m;
      NamedOnce(b, k, j, k', j', m.name);
    }
  }

  /** Before the last round the page shows exactly the ties that are not the final. */
  lemma EarlierShows(b: Bracket, last: TieId, k: nat, j: nat)
    requires b.WellFormed() && b.SingleFinal(last) && b.HasTie(k, j)
    ensures Shows(PageOf(b)[..|b.rounds| - 1], PageMatchOf(b.TieAt(k, j))) <==> b.TieAt(k, j).id != last
  {
    var n: nat := |b.rounds| - 1;
    ShownEarlier(b, n, k, j);
    LastRoundIsTheFinal(b, last);
    if b.TieAt(k, j).id == last {
      NamedOnce(b, k, j, n, 0, TieName(last));
    }
  }

  ghost predicate FinalMeetsWinners(b: Bracket) {
    && |b.rounds| > 0 && b.HasTie(|b.rounds| - 1, 0)
    && b.TieAt(|b.rounds| - 1, 0).first.WinnerOf? && b.TieAt(|b.rounds| - 1, 0).second.WinnerOf?
  }

  lemma FinalFeeders(b: Bracket)
    requires b.WellFormed() && FinalMeetsWinners(b)
    ensures var final := b.TieAt(|b.rounds| - 1, 0);
            && FeederTies(PageMatchOf(final)) == [TieName(final.first.tie), TieName(final.second.tie)]
            && TieName(final.first.tie) != TieName(final.second.tie)
  {
    var final := b.TieAt(|b.rounds| - 1, 0);
    FeedersOfTie(final);
    assert b.HasTie(|b.rounds| - 1, 0) && final.At(A) == final.first && final.At(B) == final.second;
    if TieName(final.first.tie) == TieName(final.second.tie) {
      NamesAreDistinct(final.first.tie, final.second.tie);
    }
  }

  /** Every tie but the final leads into exactly one of the final's two feeders. */
  lemma TieIsInOneHalf(b: Bracket, last: TieId, k: nat, j: nat)
    requires b.WellFormed() && b.SingleFinal(last) && FinalMeetsWinners(b)
    requires b.HasTie(k, j) && b.TieAt(k, j).id != last
    ensures var final, name, g := b.TieAt(|b.rounds| - 1, 0), TieName(b.TieAt(k, j).id), GraphOf(PageOf(b));
            LeadsInto(g, name, TieName(final.first.tie)) != LeadsInto(g, name, TieName(final.second.tie))
  {
    var n: nat := |b.rounds| - 1;
    var final, name := b.TieAt(n, 0), TieName(b.TieAt(k, j).id);
    LastRoundIsTheFinal(b, last);
    PageIsATree(b, last);
    GraphAt(b, n, 0);
    GraphAt(b, k, j);
    FinalFeeders(b);
    if name == TieName(last) {
      NamesAreDistinct(b.TieAt(k, j).id, last);
    }
    FeedersSplitTheTree(GraphOf(PageOf(b)), TieName(last), (x: string) => LevelOf(b, x),
                        TieName(final.first.tie), TieName(final.second.tie), name);
  }

  ghost predicate SharedOut(b: Bracket, last: TieId, layout: Layout, k: nat, j: nat)
    requires b.HasTie(k, j)
  {
    var m := PageMatchOf(b.TieAt(k, j));
    if b.TieAt(k, j).id == last then !Shows(layout.left, m) && !Shows(layout.right, m)
    else Shows(layout.left, m) != Shows(layout.right, m)
  }

  /** The layout's wings are cut out by the ties behind each of the final's two slots. */
  ghost predicate Halves(b: Bracket, layout: Layout, left: set<string>, right: set<string>) {
    FinalMeetsWinners(b) &&
    var final, g, earlier := b.TieAt(|b.rounds| - 1, 0), GraphOf(PageOf(b)), PageOf(b)[..|b.rounds| - 1];
    && IsSubtree(g, TieName(final.first.tie), left) && layout.left == Wing(earlier, left)
    && IsSubtree(g, TieName(final.second.tie), right) && layout.right == Wing(earlier, right)
  }

  lemma PageHasFinal(b: Bracket)
    requires FinalMeetsWinners(b)
    ensures PageOf(b)[|b.rounds| - 1].matches != []
    ensures PageOf(b)[|b.rounds| - 1].matches[0] == PageMatchOf(b.TieAt(|b.rounds| - 1, 0))
  {}

  lemma TwoWingsOfPage(page: seq<PageRound>, feeders: seq<string>, layout: Layout) returns (left: set<string>, right: set<string>)
    requires IsLayoutOf(page, layout) && page != [] && page[|page| - 1].matches != []
    requires feeders == FeederTies(page[|page| - 1].matches[0]) && |feeders| == 2
    ensures layout.final == Some(page[|page| - 1].matches[0]) && TwoWings(page, feeders, layout, left, right)
  {
    left, right :| TwoWings(page, feeders, layout, left, right);
  }

  lemma LayoutHalves(b: Bracket, rounds: seq<PageRound>, layout: Layout) returns (left: set<string>, right: set<string>)
    requires b.WellFormed() && FinalMeetsWinners(b)
    requires multiset(rounds) == multiset(PageOf(b)) && IsLayout(rounds, layout)
    ensures layout.final == Some(PageMatchOf(b.TieAt(|b.rounds| - 1, 0))) && Halves(b, layout, left, right)
  {
    OrderedIsThePage(b, rounds);
    PageHasFinal(b);
    FinalFeeders(b);
    left, right := TwoWingsOfPage(PageOf(b), FeederTies(PageMatchOf(b.TieAt(|b.rounds| - 1, 0))), layout);
  }

  lemma TieIsSharedOut(b: Bracket, last: TieId, layout: Layout, left: set<string>, right: set<string>, k: nat, j: nat)
    requires b.WellFormed() && b.SingleFinal(last) && FinalMeetsWinners(b) && b.HasTie(k, j)
    requires Halves(b, layout, left, right)
    ensures SharedOut(b, last, layout, k, j)
  {
    var m := PageMatchOf(b.TieAt(k, j));
    WingShows(PageOf(b)[..|b.rounds| - 1], left, m);
    WingShows(PageOf(b)[..|b.rounds| - 1], right, m);
    EarlierShows(b, last, k, j);
    if b.TieAt(k, j).id != last {
      TieIsInOneHalf(b, last, k, j);
    }
  }

  /**
   On a well-formed bracket whose final meets two winners, every tie but the final is shown in
   exactly one of the two wings, and the final in neither, in whatever order the rounds arrive.
   */
  lemma WingsShareOutTheTies(b: Bracket, last: TieId, rounds: seq<PageRound>, layout: Layout)
    requires b.WellFormed() && b.SingleFinal(last) && FinalMeetsWinners(b)
    requires multiset(rounds) == multiset(PageOf(b)) && IsLayout(rounds, layout)
    ensures layout.final == Some(PageMatchOf(b.TieAt(|b.rounds| - 1, 0)))
    ensures forall k: nat, j: nat {:trigger b.HasTie(k, j)} :: b.HasTie(k, j) ==> SharedOut(b, last, layout, k, j)
  {
    var left, right := LayoutHalves(b, rounds, layout);
    forall k: nat, j: nat | b.HasTie(k, j) ensures SharedOut(b, last, layout, k, j) {
      TieIsSharedOut(b, last, layout, left, right, k, j);
    }
  }

  lemma PublishedFinal(b: Bracket)
    requires b == PublishedBrackets.CupSeason1() || b == PublishedBrackets.CupSeason2()
    ensures b.WellFormed() && b.SingleFinal(Final) && FinalMeetsWinners(b)
    ensures PageMatchOf(b.TieAt(|b.rounds| - 1, 0)) == PageMatch("F", "W(SF-1)", "W(SF-2)")
  {
    PublishedBrackets.PublishedBracketsAreWellFormed();
    assert b.HasTie(5, 0) && b.TieAt(5, 0) == PublishedBrackets.FINAL_TIE;
    assert Digits(1) == "1" && Digits(2) == "2";
  }

  /** Both published Cups lay out as two wings that share out every tie but the final. */
  lemma PublishedCupsHaveTwoWings(b: Bracket, rounds: seq<PageRound>, layout: Layout)
    requires b == PublishedBrackets.CupSeason1() || b == PublishedBrackets.CupSeason2()
    requires multiset(rounds) == multiset(PageOf(b)) && IsLayout(rounds, layout)
    ensures layout.final == Some(PageMatch("F", "W(SF-1)", "W(SF-2)"))
    ensures forall k: nat, j: nat {:trigger b.HasTie(k, j)} :: b.HasTie(k, j) ==> SharedOut(b, Final, layout, k, j)
  {
    PublishedFinal(b);
    WingsShareOutTheTies(b, Final, rounds, layout);
  }
}
