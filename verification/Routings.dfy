/** The request as its users state it: one admissible set of paths per logical edge, together within capacity. */
module Routings {
  import opened Saturating
  import opened Paths
  import opened Candidates
  import opened PathSets
  import opened Families
  import opened FamilyLaws
  import opened Requests
  import opened GlobalAssignment
  import opened SolveGlobal
  import opened Planner
  import opened PlanTotals

  /** What the chosen paths place on edge x: one share for every path that crosses it. */
  ghost function Demanded(r: Request, fams: seq<set<Path>>, n: nat, x: nat): nat
    requires n <= |fams|
  {
    if n == 0 then 0 else Demanded(r, fams, n - 1, x) + Shares(r, fams[n - 1], x)
  }

  ghost function Shares(r: Request, fam: set<Path>, x: nat): nat {
    |Users(fam, x)| * PerPathDemand(r)
  }

  ghost predicate RoutedAt(r: Request, fams: seq<set<Path>>, i: nat)
    requires r.Valid() && i < |fams| == |r.logical|
  {
    r.Bound(i) && (TermsAtValid(r, i); Admissible(TermsAt(r, i), fams[i]))
  }

  /** Every logical edge has an admissible set of paths, and no verified edge carries more than its spare capacity. */
  ghost predicate Routing(r: Request, fams: seq<set<Path>>)
    requires r.Valid()
  {
    && |fams| == |r.logical|
    && (forall i {:trigger RoutedAt(r, fams, i)} | 0 <= i < |fams| :: RoutedAt(r, fams, i))
    && forall x | 0 <= x < |r.fabric.edges| && r.fabric.edges[x].capacity > 0 ::
         Demanded(r, fams, |fams|, x) <= Spare(r.fabric.edges[x])
  }

  ghost function PathsOfAll(a: seq<PathSet>): seq<set<Path>> {
    seq(|a|, i requires 0 <= i < |a| => PathsOf(a[i].paths))
  }

  // ----- one answer -----

  /** An answer's table records one share per path that crosses the edge. */
  lemma {:induction false} AnswerAmount(t: Terms, s: PathSet, x: nat)
    requires t.Valid() && t.demand <= COST_CEILING && IsAnswer(t, s) && x < |t.capacity| && t.capacity[x] > 0
    ensures Amount(s.usage, x) == |Users(PathsOf(s.paths), x)| * t.demand
  {
    BuiltFromOrdered(t, s.paths);
    UsageAmount(t, s.paths, x);
    LoadCountsUsers(t, s.paths, x);
    assert Load(t, s.paths, x) <= t.spare[x];
  }

  /** It commits nothing on an edge without verified capacity. */
  lemma {:induction false} UnverifiedAmount(t: Terms, s: PathSet, x: nat)
    requires t.Valid() && IsAnswer(t, s) && x < |t.capacity| && t.capacity[x] == 0
    ensures Amount(s.usage, x) == 0
  {
    BuiltFromOrdered(t, s.paths);
    UsageEdges(t, s.paths);
    AmountAbsent(s.usage, x);
  }

  lemma {:induction false} AnswerShare(r: Request, a: seq<PathSet>, i: nat, x: nat)
    requires r.Valid() && i < |a| == |r.logical| && AnswerAt(r, a, i) && x < |r.fabric.edges|
    ensures r.fabric.edges[x].capacity > 0 ==> Amount(a[i].usage, x) == Shares(r, PathsOf(a[i].paths), x)
    ensures r.fabric.edges[x].capacity == 0 ==> Amount(a[i].usage, x) == 0
  {
    TermsAtValid(r, i);
    if r.fabric.edges[x].capacity > 0 {
      AnswerAmount(TermsAt(r, i), a[i], x);
    } else {
      UnverifiedAmount(TermsAt(r, i), a[i], x);
    }
  }

  // ----- all of them -----

  ghost predicate AllAnswers(r: Request, a: seq<PathSet>)
    requires r.Valid()
  {
    |a| == |r.logical| && forall i {:trigger AnswerAt(r, a, i)} | 0 <= i < |a| :: AnswerAt(r, a, i)
  }

  /** Entry i commits on edge x what the i-th set of paths demands there. */
  ghost predicate Matched(r: Request, a: seq<PathSet>, fams: seq<set<Path>>, x: nat, i: nat)
    requires i < |a| == |fams|
  {
    Amount(a[i].usage, x) == Shares(r, fams[i], x)
  }

  lemma {:induction false} MatchedTotals(r: Request, a: seq<PathSet>, fams: seq<set<Path>>, n: nat, x: nat)
    requires n <= |a| == |fams| && forall i {:trigger Matched(r, a, fams, x, i)} | 0 <= i < |a| ::
             Matched(r, a, fams, x, i)
    ensures Counted(a, n, x) == Demanded(r, fams, n, x)
  {
    if n > 0 {
      MatchedTotals(r, a, fams, n - 1, x);
      assert Matched(r, a, fams, x, n - 1);
    }
  }

  lemma {:induction false} NothingTotals(a: seq<PathSet>, n: nat, x: nat)
    requires n <= |a| && forall i | 0 <= i < |a| :: Amount(a[i].usage, x) == 0
    ensures Counted(a, n, x) == 0
  {
    if n > 0 {
      NothingTotals(a, n - 1, x);
    }
  }

  lemma {:induction false} CountedShares(r: Request, a: seq<PathSet>, x: nat)
    requires r.Valid() && AllAnswers(r, a) && x < |r.fabric.edges|
    ensures r.fabric.edges[x].capacity > 0 ==> Counted(a, |a|, x) == Demanded(r, PathsOfAll(a), |a|, x)
    ensures r.fabric.edges[x].capacity == 0 ==> Counted(a, |a|, x) == 0
  {
    var fams := PathsOfAll(a);
    forall i | 0 <= i < |a|
      ensures r.fabric.edges[x].capacity > 0 ==> Matched(r, a, fams, x, i)
      ensures r.fabric.edges[x].capacity == 0 ==> Amount(a[i].usage, x) == 0
    {
      assert AnswerAt(r, a, i);
      AnswerShare(r, a, i, x);
    }
    if r.fabric.edges[x].capacity > 0 {
      MatchedTotals(r, a, fams, |a|, x);
    } else {
      NothingTotals(a, |a|, x);
    }
  }

  lemma {:induction false} MappingIsRouting(r: Request, a: seq<PathSet>)
    requires r.Valid() && Mapping(r, a)
    ensures Routing(r, PathsOfAll(a))
  {
    var fams := PathsOfAll(a);
    forall i | 0 <= i < |fams|
      ensures RoutedAt(r, fams, i)
    {
      assert AnswerAt(r, a, i);
      TermsAtValid(r, i);
      FamilyIsSet(TermsAt(r, i), a[i].paths);
    }
    forall x | 0 <= x < |r.fabric.edges| && r.fabric.edges[x].capacity > 0
      ensures Demanded(r, fams, |fams|, x) <= Spare(r.fabric.edges[x])
    {
      CountedShares(r, a, x);
      CountedWithin(r, a, x);
    }
  }

  lemma {:induction false} AnswerFor(r: Request, fams: seq<set<Path>>, i: nat) returns (s: PathSet)
    requires r.Valid() && i < |fams| == |r.logical| && RoutedAt(r, fams, i)
    ensures Serves(r, fams, i, s)
  {
    TermsAtValid(r, i);
    var t := TermsAt(r, i);
    var paths := SetHasFamily(t, fams[i]);
    BuiltFromOrdered(t, paths);
    s := BuildPathSet(t, paths);
  }

  ghost predicate ServesAll(r: Request, fams: seq<set<Path>>, a: seq<PathSet>)
    requires r.Valid()
  {
    forall i {:trigger Serves(r, fams, i, a[i])} | 0 <= i < |a| :: Serves(r, fams, i, a[i])
  }

  lemma {:induction false} ServesSnoc(r: Request, fams: seq<set<Path>>, a: seq<PathSet>, s: PathSet)
    requires r.Valid() && ServesAll(r, fams, a) && Serves(r, fams, |a|, s)
    ensures ServesAll(r, fams, a + [s])
  {
    var more := a + [s];
    forall i | 0 <= i < |more|
      ensures Serves(r, fams, i, more[i])
    {
      assert i < |a| ==> Serves(r, fams, i, a[i]);
    }
  }

  lemma {:induction false} ListAnswers(r: Request, fams: seq<set<Path>>, n: nat) returns (a: seq<PathSet>)
    requires r.Valid() && Routing(r, fams) && n <= |fams|
    ensures |a| == n && ServesAll(r, fams, a)
  {
    a := [];
    if n > 0 {
      var init := ListAnswers(r, fams, n - 1);
      assert RoutedAt(r, fams, n - 1);
      var s := AnswerFor(r, fams, n - 1);
      ServesSnoc(r, fams, init, s);
      a := init + [s];
    }
  }

  lemma {:induction false} AnswersFor(r: Request, fams: seq<set<Path>>) returns (a: seq<PathSet>)
    requires r.Valid() && Routing(r, fams)
    ensures AllAnswers(r, a) && PathsOfAll(a) == fams
  {
    a := ListAnswers(r, fams, |fams|);
    forall i | 0 <= i < |a|
      ensures AnswerAt(r, a, i) && PathsOf(a[i].paths) == fams[i]
    {
      assert Serves(r, fams, i, a[i]);
    }
  }

  ghost predicate Serves(r: Request, fams: seq<set<Path>>, i: nat, s: PathSet)
    requires r.Valid()
  {
    && i < |fams| == |r.logical| && r.Bound(i)
    && (TermsAtValid(r, i); IsAnswer(TermsAt(r, i), s)) && PathsOf(s.paths) == fams[i]
  }

  lemma {:induction false} RoutingIsMapping(r: Request, fams: seq<set<Path>>) returns (a: seq<PathSet>)
    requires r.Valid() && Routing(r, fams)
    ensures Mapping(r, a) && PathsOfAll(a) == fams
  {
    a := AnswersFor(r, fams);
    SingleScore(a, |a|, 0);
    forall x | 0 <= x < |r.fabric.edges|
      ensures Committed(Single(a), Fronts(|a|), x) <= SpareOf(r)[x]
    {
      CountedShares(r, a, x);
      SingleScore(a, |a|, x);
    }
  }

  /** A mapping exists exactly when the request can be routed. */
  lemma {:induction false} MappableIffRoutable(r: Request)
    requires r.Valid()
    ensures (exists a :: Mapping(r, a)) <==> (exists fams :: Routing(r, fams))
  {
    if a :| Mapping(r, a) {
      MappingIsRouting(r, a);
    }
    if fams :| Routing(r, fams) {
      var a := RoutingIsMapping(r, fams);
    }
  }

  /** Every routing is a mapping whose score is no better than the given one. */
  ghost predicate UnbeatenByRouting(r: Request, score: Score)
    requires r.Valid()
  {
    forall fams {:trigger Routing(r, fams)} | Routing(r, fams) :: Scored(r, fams, score)
  }

  ghost predicate Scored(r: Request, fams: seq<set<Path>>, score: Score)
    requires r.Valid()
  {
    exists a {:trigger Mapping(r, a)} :: Mapping(r, a) && PathsOfAll(a) == fams && NoWorse3(score, MappingScore(a))
  }

  lemma {:induction false} UnbeatenRoutes(r: Request, score: Score)
    requires r.Valid() && Unbeaten(r, score)
    ensures UnbeatenByRouting(r, score)
  {
    forall fams | Routing(r, fams)
      ensures Scored(r, fams, score)
    {
      var a := RoutingIsMapping(r, fams);
    }
  }
}
