/**
 The two halves of a Cup that meet in its final, read off the labels of the ties: a depth-first
 search over whatever the labels say, cyclic or not.
 */
module BracketWings {
  import opened Wrappers
  import opened Sorting
  import opened BracketLabels

  /** A match as the page receives it: its name and what each of its slots prints. */
  datatype PageMatch = PageMatch(name: string, slotA: string, slotB: string)

  datatype PageRound = PageRound(order: int, matches: seq<PageMatch>)

  datatype Layout = Layout(left: seq<PageRound>, right: seq<PageRound>, final: Option<PageMatch>, finalRound: Option<PageRound>)

  type Graph = map<string, PageMatch>

  function AsSeq(x: Option<string>): seq<string> {
    match x case Some(s) => [s] case None => []
  }

  /** The ties whose winners play in this one. */
  function FeederTies(m: PageMatch): seq<string> {
    AsSeq(FeederIn(m.slotA)) + AsSeq(FeederIn(m.slotB))
  }

  // ----- Reachability -----

  predicate Feeds(g: Graph, feeder: string, tie: string) {
    tie in g && feeder in FeederTies(g[tie])
  }

  /** A walk from a tie back through its feeders. */
  ghost predicate Walk(g: Graph, path: seq<string>) {
    path != [] && forall i :: 0 <= i < |path| - 1 ==> Feeds(g, path[i + 1], path[i])
  }

  ghost predicate WalkBetween(g: Graph, path: seq<string>, tie: string, ancestor: string) {
    Walk(g, path) && path[0] == tie && path[|path| - 1] == ancestor
  }

  /** `ancestor` leads into `tie`, through any number of earlier ties. */
  ghost predicate LeadsInto(g: Graph, ancestor: string, tie: string) {
    exists path :: WalkBetween(g, path, tie, ancestor)
  }

  lemma LeadsIntoItself(g: Graph, tie: string)
    ensures LeadsInto(g, tie, tie)
  {
    assert WalkBetween(g, [tie], tie, tie);
  }

  /** The last step of a walk: what a tie leads into beyond itself, it leads into through its consumer. */
  lemma LastStep(g: Graph, ancestor: string, tie: string) returns (consumer: string)
    requires LeadsInto(g, ancestor, tie) && ancestor != tie
    ensures Feeds(g, ancestor, consumer) && LeadsInto(g, consumer, tie)
  {
    var path :| WalkBetween(g, path, tie, ancestor);
    var n := |path|;
    consumer := path[n - 2];
    assert Feeds(g, path[n - 2 + 1], path[n - 2]);
    assert WalkBetween(g, path[..n - 1], tie, consumer);
  }

  /** A set of ties closed under feeders holds everything that leads into its members. */
  lemma {:induction false} ClosedHoldsWalk(g: Graph, ids: set<string>, path: seq<string>)
    requires forall x, y :: x in ids && Feeds(g, y, x) ==> y in ids
    requires Walk(g, path) && path[0] in ids
    ensures path[|path| - 1] in ids
  {
    if |path| > 1 {
      assert Feeds(g, path[0 + 1], path[0]);
      forall i | 0 <= i < |path[1..]| - 1 ensures Feeds(g, path[1..][i + 1], path[1..][i]) {
        assert Feeds(g, path[i + 1 + 1], path[i + 1]);
      }
      ClosedHoldsWalk(g, ids, path[1..]);
    }
  }

  // ----- The search -----

  class SeenTies {
    var ids: set<string>

    constructor ()
      ensures ids == {}
    {
      ids := {};
    }
  }

  /** Every tie that leads into this one, itself included, added to what has been seen. */
  method Ancestry(tie: string, g: Graph, seen: SeenTies)
    modifies seen
    ensures old(seen.ids) <= seen.ids && tie in seen.ids
    ensures forall x :: x in seen.ids && x !in old(seen.ids) ==> LeadsInto(g, x, tie)
    ensures forall x, y :: x in seen.ids && x !in old(seen.ids) && Feeds(g, y, x) ==> y in seen.ids
    decreases g.Keys - seen.ids
  {
    if tie in seen.ids {
      return;
    }
    ghost var before := seen.ids;
    seen.ids := seen.ids + {tie};
    LeadsIntoItself(g, tie);
    if tie !in g {
      return;
    }
    var feeders := FeederTies(g[tie]);
    for i := 0 to |feeders|
      invariant before + {tie} <= seen.ids
      invariant forall x :: x in seen.ids && x !in before ==> LeadsInto(g, x, tie)
      invariant forall x, y :: x in seen.ids && x !in before && x != tie && Feeds(g, y, x) ==> y in seen.ids
      invariant forall j :: 0 <= j < i ==> feeders[j] in seen.ids
    {
      ghost var seenBefore := seen.ids;
      assert Feeds(g, feeders[i], tie);
      assert tie in g.Keys - before;
      Ancestry(feeders[i], g, seen);
      forall x | x in seen.ids && x !in seenBefore ensures LeadsInto(g, x, tie) {
        var path :| WalkBetween(g, path, feeders[i], x);
        assert WalkBetween(g, [tie] + path, tie, x);
      }
    }
  }

  /** Exactly the ties that lead into this one; the labels may say anything, even form a cycle. */
  method Subtree(tie: string, g: Graph) returns (ids: set<string>)
    ensures forall x :: x in ids <==> LeadsInto(g, x, tie)
  {
    var seen := new SeenTies();
    Ancestry(tie, g, seen);
    ids := seen.ids;
    forall x | LeadsInto(g, x, tie) ensures x in ids {
      var path :| WalkBetween(g, path, tie, x);
      ClosedHoldsWalk(g, ids, path);
    }
  }

  // ----- The layout -----

  function OrderKey(round: PageRound): Key {
    [round.order]
  }

  function Ordered(rounds: seq<PageRound>): (ordered: seq<PageRound>)
    ensures |ordered| == |rounds|
  {
    SortPermutes(rounds, OrderKey, false);
    Sort(rounds, OrderKey, false)
  }

  function AllMatches(rounds: seq<PageRound>): seq<PageMatch> {
    if rounds == [] then [] else AllMatches(rounds[..|rounds| - 1]) + rounds[|rounds| - 1].matches
  }

  /** Ties by name; a later tie of the same name replaces an earlier one. */
  function GraphFrom(matches: seq<PageMatch>): Graph {
    if matches == [] then map[]
    else GraphFrom(matches[..|matches| - 1])[matches[|matches| - 1].name := matches[|matches| - 1]]
  }

  function GraphOf(rounds: seq<PageRound>): Graph {
    GraphFrom(AllMatches(rounds))
  }

  function MatchesIn(matches: seq<PageMatch>, ids: set<string>): seq<PageMatch> {
    if matches == [] then []
    else MatchesIn(matches[..|matches| - 1], ids) +
         if matches[|matches| - 1].name in ids then [matches[|matches| - 1]] else []
  }

  /** The rounds cut down to these ties, without the rounds that lose them all. */
  function Wing(rounds: seq<PageRound>, ids: set<string>): seq<PageRound> {
    if rounds == [] then []
    else
      var round := rounds[|rounds| - 1];
      var kept := MatchesIn(round.matches, ids);
      Wing(rounds[..|rounds| - 1], ids) + if kept != [] then [round.(matches := kept)] else []
  }

  function NamesOf(matches: seq<PageMatch>): set<string> {
    set m | m in matches :: m.name
  }

  /** Two wings cut out of the earlier rounds by the ties behind two feeders. */
  ghost predicate TwoWings(ordered: seq<PageRound>, feeders: seq<string>, layout: Layout, left: set<string>, right: set<string>) {
    && ordered != [] && |feeders| >= 2
    && IsSubtree(GraphOf(ordered), feeders[0], left) && layout.left == Wing(ordered[..|ordered| - 1], left)
    && IsSubtree(GraphOf(ordered), feeders[1], right) && layout.right == Wing(ordered[..|ordered| - 1], right)
  }

  /** What the page must show: the ties behind the final's two feeders, or everything on the left. */
  ghost predicate IsLayoutOf(ordered: seq<PageRound>, layout: Layout) {
    if ordered == [] then layout == Layout([], [], None, None)
    else
      var finalRound, earlier := ordered[|ordered| - 1], ordered[..|ordered| - 1];
      && layout.finalRound == Some(finalRound)
      && if finalRound.matches == [] then layout.final.None? && layout.left == layout.right == []
         else
           var feeders := FeederTies(finalRound.matches[0]);
           && layout.final == Some(finalRound.matches[0])
           && if |feeders| < 2 then layout.left == Wing(earlier, NamesOf(AllMatches(earlier))) && layout.right == []
              else exists left: set<string>, right: set<string> :: TwoWings(ordered, feeders, layout, left, right)
  }

  ghost predicate IsLayout(rounds: seq<PageRound>, layout: Layout) {
    IsLayoutOf(Ordered(rounds), layout)
  }

  ghost predicate IsSubtree(g: Graph, tie: string, ids: set<string>) {
    forall x :: x in ids <==> LeadsInto(g, x, tie)
  }

  lemma GraphSnoc(matches: seq<PageMatch>, m: PageMatch)
    ensures GraphFrom(matches + [m]) == GraphFrom(matches)[m.name := m]
  {
    assert (matches + [m])[..|matches|] == matches;
  }

  method TiesByName(rounds: seq<PageRound>) returns (byTie: Graph)
    ensures byTie == GraphOf(rounds)
  {
    byTie := map[];
    for i := 0 to |rounds|
      invariant byTie == GraphOf(rounds[..i])
    {
      var round := rounds[i];
      assert rounds[..i + 1][..i] == rounds[..i];
      ghost var before := AllMatches(rounds[..i]);
      assert before + round.matches[..0] == before;
      for j := 0 to |round.matches|
        invariant byTie == GraphFrom(before + round.matches[..j])
      {
        GraphSnoc(before + round.matches[..j], round.matches[j]);
        assert before + round.matches[..j + 1] == before + round.matches[..j] + [round.matches[j]];
        byTie := byTie[round.matches[j].name := round.matches[j]];
      }
      assert round.matches[..|round.matches|] == round.matches;
    }
    assert rounds[..|rounds|] == rounds;
  }

  method LayoutBracket(rounds: seq<PageRound>) returns (layout: Layout)
    ensures IsLayout(rounds, layout)
  {
    var ordered := Ordered(rounds);
    var byTie := TiesByName(ordered);
    if ordered == [] {
      return Layout([], [], None, None);
    }
    var finalRound, earlier := ordered[|ordered| - 1], ordered[..|ordered| - 1];
    if finalRound.matches == [] {
      return Layout([], [], None, Some(finalRound));
    }
    var final := finalRound.matches[0];
    var feeders := FeederTies(final);
    if |feeders| < 2 {
      return Layout(Wing(earlier, NamesOf(AllMatches(earlier))), [], Some(final), Some(finalRound));
    }
    var left := Subtree(feeders[0], byTie);
    var right := Subtree(feeders[1], byTie);
    layout := Layout(Wing(earlier, left), Wing(earlier, right), Some(final), Some(finalRound));
    assert TwoWings(ordered, feeders, layout, left, right);
  }

  // ----- What a wing holds -----

  ghost predicate Shows(rounds: seq<PageRound>, m: PageMatch) {
    exists round :: round in rounds && m in round.matches
  }

  lemma {:induction false} MatchesInHolds(matches: seq<PageMatch>, ids: set<string>)
    ensures forall m :: m in MatchesIn(matches, ids) <==> m in matches && m.name in ids
  {
    if matches != [] {
      assert matches == matches[..|matches| - 1] + [matches[|matches| - 1]];
      MatchesInHolds(matches[..|matches| - 1], ids);
    }
  }

  /** A wing shows exactly the matches of its rounds whose names are in its set. */
  lemma {:induction false} WingShows(rounds: seq<PageRound>, ids: set<string>, m: PageMatch)
    ensures Shows(Wing(rounds, ids), m) <==> Shows(rounds, m) && m.name in ids
  {
    if rounds != [] {
      var before, round := rounds[..|rounds| - 1], rounds[|rounds| - 1];
      assert rounds == before + [round];
      WingShows(before, ids, m);
      MatchesInHolds(round.matches, ids);
      var kept := round.(matches := MatchesIn(round.matches, ids));
      assert m in kept.matches <==> m in round.matches && m.name in ids;
      assert forall r :: r in Wing(rounds, ids) <==> r in Wing(before, ids) || (r == kept && kept.matches != []);
    }
  }

  // ----- Two feeders split a tree -----

  /** Every tie but the root has one consumer, later than itself. */
  ghost predicate IsTree(g: Graph, root: string, level: string -> int) {
    && root in g
    && (forall a, b {:trigger Feeds(g, a, b)} :: Feeds(g, a, b) ==> a in g && level(a) < level(b) <= level(root))
    && (forall a, b, c {:trigger Feeds(g, a, b), Feeds(g, a, c)} :: Feeds(g, a, b) && Feeds(g, a, c) ==> b == c)
    && (forall a :: a in g && a != root ==> exists b :: Feeds(g, a, b))
  }

  lemma RootLeadsNowhere(g: Graph, root: string, level: string -> int, tie: string)
    requires IsTree(g, root, level) && tie != root
    ensures !LeadsInto(g, root, tie)
  {
    if LeadsInto(g, root, tie) {
      var consumer := LastStep(g, root, tie);
    }
  }

  /** Past itself, a tie leads wherever its only consumer leads. */
  lemma LeadsLikeItsConsumer(g: Graph, root: string, level: string -> int, t: string, consumer: string, x: string)
    requires IsTree(g, root, level) && Feeds(g, t, consumer) && x != t
    ensures LeadsInto(g, t, x) <==> LeadsInto(g, consumer, x)
  {
    if LeadsInto(g, t, x) {
      var other := LastStep(g, t, x);
    }
    if LeadsInto(g, consumer, x) {
      var path :| WalkBetween(g, path, x, consumer);
      assert WalkBetween(g, path + [t], x, t);
    }
  }

  /** Every tie but the root leads into exactly one of the root's two feeders. */
  lemma {:induction false} FeedersSplitTheTree(g: Graph, root: string, level: string -> int, left: string, right: string, t: string)
    requires IsTree(g, root, level) && FeederTies(g[root]) == [left, right] && left != right
    requires t in g && t != root
    ensures LeadsInto(g, t, left) != LeadsInto(g, t, right)
    decreases level(root) - level(t)
  {
    assert Feeds(g, left, root) && Feeds(g, right, root);
    var consumer :| Feeds(g, t, consumer);
    if consumer == root {
      RootLeadsNowhere(g, root, level, left);
      RootLeadsNowhere(g, root, level, right);
      LeadsIntoItself(g, t);
      if t != left {
        LeadsLikeItsConsumer(g, root, level, t, root, left);
      }
      if t != right {
        LeadsLikeItsConsumer(g, root, level, t, root, right);
      }
    } else {
      FeedersSplitTheTree(g, root, level, left, right, consumer);
      LeadsLikeItsConsumer(g, root, level, t, consumer, left);
      LeadsLikeItsConsumer(g, root, level, t, consumer, right);
    }
  }
}
