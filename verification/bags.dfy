/** Day 7's luggage rules: each bag colour must directly contain given
    numbers of bags of other colours. Questions asked of the rules: which
    colours eventually hold a given colour, and how many bags a given colour
    holds in total. The rules are taken as already parsed. */
module Bags {

  /** One entry of a rule: `count` bags of colour `colour`. */
  datatype Content = Content(count: nat, colour: string)

  /** The rules, by outer colour. */
  datatype Bags = Bags(rules: map<string, seq<Content>>)

  /** Some entry of `contents` names `colour`. */
  predicate Names(contents: seq<Content>, colour: string) {
    exists i :: 0 <= i < |contents| && contents[i].colour == colour
  }

  /** The rules have no cycle: `rank` orders the colours so that every bag
      only directly contains bags of lower rank, and every rank is below
      `height`. The functions below recurse along the rules without
      remembering where they have been, so on a cycle they would not
      terminate. */
  ghost predicate Ranked(bags: Bags, rank: map<string, nat>, height: nat) {
    forall k :: k in bags.rules ==>
      k in rank && rank[k] < height &&
      forall i :: 0 <= i < |bags.rules[k]| ==>
        bags.rules[k][i].colour in rank && rank[bags.rules[k][i].colour] < rank[k]
  }

  /** Every colour a rule mentions has a rule of its own. */
  ghost predicate Closed(bags: Bags) {
    forall k, i :: k in bags.rules && 0 <= i < |bags.rules[k]| ==> bags.rules[k][i].colour in bags.rules
  }

  // ---------------------------------------------------------------------------
  // Containers
  // ---------------------------------------------------------------------------

  /** Bag `a` eventually holds a bag of colour `c`: one of its entries is
      `c`, or is a bag that eventually holds `c`. */
  ghost predicate Within(bags: Bags, rank: map<string, nat>, height: nat, a: string, c: string)
    requires Ranked(bags, rank, height)
    decreases if a in rank then rank[a] else 0
  {
    a in bags.rules &&
    exists i :: 0 <= i < |bags.rules[a]| &&
      (bags.rules[a][i].colour == c || Within(bags, rank, height, bags.rules[a][i].colour, c))
  }

  /** The colours whose bags eventually hold a bag of colour `c`. */
  ghost function Ancestors(bags: Bags, rank: map<string, nat>, height: nat, c: string): set<string>
    requires Ranked(bags, rank, height)
  {
    set k | k in bags.rules && Within(bags, rank, height, k, c)
  }

  /** `order` is the order in which the map's entries are visited: every
      key exactly once. */
  predicate IsKeyOrder(bags: Bags, order: seq<string>) {
    (forall i :: 0 <= i < |order| ==> order[i] in bags.rules) &&
    (forall k :: k in bags.rules ==> k in order) &&
    (forall i, j :: 0 <= i < j < |order| ==> order[i] != order[j])
  }

  /** The measure of the upward search: it climbs to higher ranks. */
  function Climb(rank: map<string, nat>, height: nat, c: string): nat {
    if c in rank && rank[c] <= height then height - rank[c] else 0
  }

  /** `find_parents`: visiting the rules in `order`, every colour with an
      entry naming `colour` is added to `found` and then searched from in
      turn. */
  function FindParents(bags: Bags, ghost rank: map<string, nat>, ghost height: nat, order: seq<string>,
                       found: set<string>, colour: string): (r: set<string>)
    requires Ranked(bags, rank, height) && IsKeyOrder(bags, order)
    ensures found <= r
    decreases Climb(rank, height, colour), |order| + 1
  {
    ParentsFrom(bags, rank, height, order, found, colour, 0)
  }

  /** The loop of `find_parents` from the `i`-th visited rule on. */
  function ParentsFrom(bags: Bags, ghost rank: map<string, nat>, ghost height: nat, order: seq<string>,
                       found: set<string>, colour: string, i: nat): (r: set<string>)
    requires Ranked(bags, rank, height) && IsKeyOrder(bags, order)
    requires i <= |order|
    ensures found <= r
    decreases Climb(rank, height, colour), |order| - i
  {
    if i == |order| then found
    else
      var key := order[i];
      var next := if Names(bags.rules[key], colour) then FindParents(bags, rank, height, order, found + {key}, key) else found;
      ParentsFrom(bags, rank, height, order, next, colour, i + 1)
  }

  /** Set union regrouped, as the containers of one rule join the rest. */
  lemma UnionRegroups<T>(found: set<T>, key: T, above: set<T>, rest: set<T>)
    ensures ((found + {key}) + above) + rest == found + (({key} + above) + rest)
  {
  }

  /** A rule that adds nothing leaves the union as it was. */
  lemma EmptyUnion<T>(found: set<T>, rest: set<T>)
    ensures found + rest == found + ({} + rest)
  {
  }

  /** One visited rule of the loop of `find_parents`. */
  lemma ParentsStep(bags: Bags, rank: map<string, nat>, height: nat, order: seq<string>,
                    found: set<string>, colour: string, i: nat)
    requires Ranked(bags, rank, height) && IsKeyOrder(bags, order)
    requires i < |order|
    ensures ParentsFrom(bags, rank, height, order, found, colour, i) ==
              ParentsFrom(bags, rank, height, order,
                          if Names(bags.rules[order[i]], colour)
                          then FindParents(bags, rank, height, order, found + {order[i]}, order[i])
                          else found, colour, i + 1)
  {
  }

  /** `silver_find`: the number of colours `find_parents` collects from
      nothing. */
  function SilverFind(bags: Bags, ghost rank: map<string, nat>, ghost height: nat, order: seq<string>,
                      colour: string): (n: nat)
    requires Ranked(bags, rank, height) && IsKeyOrder(bags, order)
    ensures n == |Ancestors(bags, rank, height, colour)|
  {
    ParentsAreAncestors(bags, rank, height, order, {}, colour);
    |FindParents(bags, rank, height, order, {}, colour)|
  }

  /** Containment only goes down in rank, so no bag holds its own colour. */
  lemma {:induction false} WithinLowers(bags: Bags, rank: map<string, nat>, height: nat, a: string, c: string)
    requires Ranked(bags, rank, height)
    requires Within(bags, rank, height, a, c)
    ensures a in rank && c in rank && rank[c] < rank[a]
    ensures a != c
    decreases rank[a]
  {
    var i :| 0 <= i < |bags.rules[a]| &&
      (bags.rules[a][i].colour == c || Within(bags, rank, height, bags.rules[a][i].colour, c));
    var d := bags.rules[a][i].colour;
    if d != c {
      WithinLowers(bags, rank, height, d, c);
    }
  }

  /** Eventual containment is transitive. */
  lemma {:induction false} WithinTransitive(bags: Bags, rank: map<string, nat>, height: nat, a: string, b: string, c: string)
    requires Ranked(bags, rank, height)
    requires Within(bags, rank, height, a, b) && Within(bags, rank, height, b, c)
    ensures Within(bags, rank, height, a, c)
    decreases rank[a]
  {
    var i :| 0 <= i < |bags.rules[a]| &&
      (bags.rules[a][i].colour == b || Within(bags, rank, height, bags.rules[a][i].colour, b));
    var d := bags.rules[a][i].colour;
    if d != b {
      WithinTransitive(bags, rank, height, d, b, c);
    }
    assert d == b ==> Within(bags, rank, height, d, c);
  }

  /** The last step of a chain of containment: `a` eventually holds `c`
      exactly when some colour `k` directly names `c` and `a` is `k` or
      eventually holds it. */
  lemma WithinLastStep(bags: Bags, rank: map<string, nat>, height: nat, a: string, c: string)
    requires Ranked(bags, rank, height)
    ensures Within(bags, rank, height, a, c) <==>
              exists k :: k in bags.rules && Names(bags.rules[k], c) && (a == k || Within(bags, rank, height, a, k))
  {
    if Within(bags, rank, height, a, c) {
      var k := LastStepOf(bags, rank, height, a, c);
    }
    if exists k :: k in bags.rules && Names(bags.rules[k], c) && (a == k || Within(bags, rank, height, a, k)) {
      var k :| k in bags.rules && Names(bags.rules[k], c) && (a == k || Within(bags, rank, height, a, k));
      LastStepWithin(bags, rank, height, a, k, c);
    }
  }

  /** A chain of containment ends at a colour that directly names `c`. */
  lemma {:induction false} LastStepOf(bags: Bags, rank: map<string, nat>, height: nat, a: string, c: string)
    returns (k: string)
    requires Ranked(bags, rank, height) && Within(bags, rank, height, a, c)
    ensures k in bags.rules && Names(bags.rules[k], c) && (a == k || Within(bags, rank, height, a, k))
    decreases rank[a]
  {
    var i :| 0 <= i < |bags.rules[a]| &&
      (bags.rules[a][i].colour == c || Within(bags, rank, height, bags.rules[a][i].colour, c));
    var d := bags.rules[a][i].colour;
    if d == c {
      k := a;
      assert Names(bags.rules[a], c);
    } else {
      k := LastStepOf(bags, rank, height, d, c);
      assert Within(bags, rank, height, a, k);
    }
  }

  /** A colour that is, or eventually holds, a colour directly naming `c`
      eventually holds `c`. */
  lemma LastStepWithin(bags: Bags, rank: map<string, nat>, height: nat, a: string, k: string, c: string)
    requires Ranked(bags, rank, height)
    requires k in bags.rules && Names(bags.rules[k], c) && (a == k || Within(bags, rank, height, a, k))
    ensures Within(bags, rank, height, a, c)
  {
    var j :| 0 <= j < |bags.rules[k]| && bags.rules[k][j].colour == c;
    assert Within(bags, rank, height, k, c);
    if a != k {
      WithinTransitive(bags, rank, height, a, k, c);
    }
  }

  /** The colours gathered by visiting the rules in `order` from position
      `i` on: every visited colour naming `c`, and the colours above it. */
  ghost function AboveFrom(bags: Bags, rank: map<string, nat>, height: nat, order: seq<string>, c: string, i: nat): set<string>
    requires Ranked(bags, rank, height)
  {
    set k | k in bags.rules &&
      exists j :: i <= j < |order| && order[j] in bags.rules &&
        Names(bags.rules[order[j]], c) && (k == order[j] || Within(bags, rank, height, k, order[j]))
  }

  /** Gathering from the first visited rule on finds every container. */
  lemma AncestorsAreAbove(bags: Bags, rank: map<string, nat>, height: nat, order: seq<string>, c: string)
    requires Ranked(bags, rank, height) && IsKeyOrder(bags, order)
    ensures Ancestors(bags, rank, height, c) == AboveFrom(bags, rank, height, order, c, 0)
  {
    forall a | a in bags.rules
      ensures a in Ancestors(bags, rank, height, c) <==> a in AboveFrom(bags, rank, height, order, c, 0)
    {
      WithinLastStep(bags, rank, height, a, c);
      if Within(bags, rank, height, a, c) {
        var k :| k in bags.rules && Names(bags.rules[k], c) && (a == k || Within(bags, rank, height, a, k));
        var j :| 0 <= j < |order| && order[j] == k;
      }
    }
  }

  /** One visited rule: `order[i]` contributes itself and its containers
      when it names `c`, and nothing otherwise. */
  lemma AboveStep(bags: Bags, rank: map<string, nat>, height: nat, order: seq<string>, c: string, i: nat)
    requires Ranked(bags, rank, height) && IsKeyOrder(bags, order)
    requires i < |order|
    ensures AboveFrom(bags, rank, height, order, c, i) ==
              (if Names(bags.rules[order[i]], c)
               then {order[i]} + Ancestors(bags, rank, height, order[i])
               else {}) + AboveFrom(bags, rank, height, order, c, i + 1)
  {
  }

  /** `find_parents` adds exactly the containers of `colour` to `found`,
      whatever order the rules are visited in. */
  lemma {:induction false} ParentsAreAncestors(bags: Bags, rank: map<string, nat>, height: nat, order: seq<string>,
                                               found: set<string>, colour: string)
    requires Ranked(bags, rank, height) && IsKeyOrder(bags, order)
    ensures FindParents(bags, rank, height, order, found, colour) == found + Ancestors(bags, rank, height, colour)
    decreases Climb(rank, height, colour), |order| + 1
  {
    ParentsFromAbove(bags, rank, height, order, found, colour, 0);
    AncestorsAreAbove(bags, rank, height, order, colour);
  }

  /** The loop from position `i` on adds the colours gathered from there. */
  lemma {:induction false} ParentsFromAbove(bags: Bags, rank: map<string, nat>, height: nat, order: seq<string>,
                                            found: set<string>, colour: string, i: nat)
    requires Ranked(bags, rank, height) && IsKeyOrder(bags, order)
    requires i <= |order|
    ensures ParentsFrom(bags, rank, height, order, found, colour, i) == found + AboveFrom(bags, rank, height, order, colour, i)
    decreases Climb(rank, height, colour), |order| - i
  {
    if i < |order| {
      var key := order[i];
      AboveStep(bags, rank, height, order, colour, i);
      ParentsStep(bags, rank, height, order, found, colour, i);
      var rest := AboveFrom(bags, rank, height, order, colour, i + 1);
      if Names(bags.rules[key], colour) {
        var j :| 0 <= j < |bags.rules[key]| && bags.rules[key][j].colour == colour;
        assert Climb(rank, height, key) < Climb(rank, height, colour);
        ParentsAreAncestors(bags, rank, height, order, found + {key}, key);
        var next := FindParents(bags, rank, height, order, found + {key}, key);
        ParentsFromAbove(bags, rank, height, order, next, colour, i + 1);
        UnionRegroups(found, key, Ancestors(bags, rank, height, key), rest);
      } else {
        ParentsFromAbove(bags, rank, height, order, found, colour, i + 1);
        EmptyUnion(found, rest);
      }
    }
  }

  // ---------------------------------------------------------------------------
  // Contents
  // ---------------------------------------------------------------------------

  /** `gold_find`: the number of bags inside a bag of colour `colour`. The
      source indexes the map, so the colour must have a rule, and so must
      every colour reached from it. */
  function GoldFind(bags: Bags, ghost rank: map<string, nat>, ghost height: nat, colour: string): (n: nat)
    requires Ranked(bags, rank, height) && Closed(bags) && colour in bags.rules
    ensures n == 0 <==> forall i :: 0 <= i < |bags.rules[colour]| ==> bags.rules[colour][i].count == 0
    decreases rank[colour], 1
  {
    GoldFrom(bags, rank, height, bags.rules[colour], rank[colour])
  }

  /** The loop of `gold_find` over the entries of one rule, each of rank
      below `top`: every entry adds its count, and its count times the
      bags inside one of its bags. */
  function GoldFrom(bags: Bags, ghost rank: map<string, nat>, ghost height: nat, contents: seq<Content>, ghost top: nat): (n: nat)
    requires Ranked(bags, rank, height) && Closed(bags)
    requires forall i :: 0 <= i < |contents| ==>
               contents[i].colour in bags.rules && rank[contents[i].colour] < top
    ensures n == 0 <==> forall i :: 0 <= i < |contents| ==> contents[i].count == 0
    decreases top, 0, |contents|
  {
    if |contents| == 0 then 0
    else
      var entry := contents[0];
      var rest := GoldFrom(bags, rank, height, contents[1..], top);
      assert forall i :: 1 <= i < |contents| ==> contents[i] == contents[1..][i - 1];
      entry.count + entry.count * GoldFind(bags, rank, height, entry.colour) + rest
  }

  /** `n` copies of the bags in `m`. */
  function Times(m: multiset<string>, n: nat): (r: multiset<string>)
    ensures |r| == n * |m|
  {
    if n == 0 then multiset{} else m + Times(m, n - 1)
  }

  /** Every bag found when unpacking a bag of colour `colour`, entry by
      entry and bag by bag, by colour. */
  ghost function Unpack(bags: Bags, rank: map<string, nat>, height: nat, colour: string): multiset<string>
    requires Ranked(bags, rank, height) && Closed(bags) && colour in bags.rules
    decreases rank[colour], 1
  {
    UnpackFrom(bags, rank, height, bags.rules[colour], rank[colour])
  }

  /** Unpacking every bag of the given entries. */
  ghost function UnpackFrom(bags: Bags, rank: map<string, nat>, height: nat, contents: seq<Content>, top: nat): multiset<string>
    requires Ranked(bags, rank, height) && Closed(bags)
    requires forall i :: 0 <= i < |contents| ==>
               contents[i].colour in bags.rules && rank[contents[i].colour] < top
    decreases top, 0, |contents|
  {
    if |contents| == 0 then multiset{}
    else
      var entry := contents[0];
      Times(multiset{entry.colour} + Unpack(bags, rank, height, entry.colour), entry.count)
        + UnpackFrom(bags, rank, height, contents[1..], top)
  }

  /** `n` copies of a bag holding `inner` bags: `n` bags and `n` times
      `inner` bags inside them. */
  lemma TimesCount(m: multiset<string>, n: nat, inner: nat)
    requires |m| == 1 + inner
    ensures |Times(m, n)| == n + n * inner
  {
    assert n * (1 + inner) == n + n * inner;
  }

  /** `gold_find` counts exactly the bags found by unpacking. */
  lemma {:induction false} GoldCountsUnpacked(bags: Bags, rank: map<string, nat>, height: nat, colour: string)
    requires Ranked(bags, rank, height) && Closed(bags) && colour in bags.rules
    ensures GoldFind(bags, rank, height, colour) == |Unpack(bags, rank, height, colour)|
    decreases rank[colour], 1
  {
    GoldFromCountsUnpacked(bags, rank, height, bags.rules[colour], rank[colour]);
  }

  lemma {:induction false} GoldFromCountsUnpacked(bags: Bags, rank: map<string, nat>, height: nat,
                                                  contents: seq<Content>, top: nat)
    requires Ranked(bags, rank, height) && Closed(bags)
    requires forall i :: 0 <= i < |contents| ==>
               contents[i].colour in bags.rules && rank[contents[i].colour] < top
    ensures GoldFrom(bags, rank, height, contents, top) == |UnpackFrom(bags, rank, height, contents, top)|
    decreases top, 0, |contents|
  {
    if |contents| > 0 {
      var entry := contents[0];
      var rest := contents[1..];
      assert forall i :: 0 <= i < |rest| ==> rest[i] == contents[i + 1];
      FromStep(bags, rank, height, contents, top);
      GoldCountsUnpacked(bags, rank, height, entry.colour);
      GoldFromCountsUnpacked(bags, rank, height, rest, top);
      var inner := GoldFind(bags, rank, height, entry.colour);
      TimesCount(multiset{entry.colour} + Unpack(bags, rank, height, entry.colour), entry.count, inner);
    }
  }

  /** One entry of the loop, for the count and for the unpacked bags. */
  lemma FromStep(bags: Bags, rank: map<string, nat>, height: nat, contents: seq<Content>, top: nat)
    requires Ranked(bags, rank, height) && Closed(bags) && |contents| > 0
    requires forall i :: 0 <= i < |contents| ==>
               contents[i].colour in bags.rules && rank[contents[i].colour] < top
    ensures var e := contents[0];
            GoldFrom(bags, rank, height, contents, top) ==
              e.count + e.count * GoldFind(bags, rank, height, e.colour) + GoldFrom(bags, rank, height, contents[1..], top)
    ensures var e := contents[0];
            UnpackFrom(bags, rank, height, contents, top) ==
              Times(multiset{e.colour} + Unpack(bags, rank, height, e.colour), e.count)
                + UnpackFrom(bags, rank, height, contents[1..], top)
  {
  }

  /** The visiting order does not matter: any two orders of the keys give
      the same colours. */
  lemma ParentsIgnoreOrder(bags: Bags, rank: map<string, nat>, height: nat, order1: seq<string>, order2: seq<string>,
                           found: set<string>, colour: string)
    requires Ranked(bags, rank, height) && IsKeyOrder(bags, order1) && IsKeyOrder(bags, order2)
    ensures FindParents(bags, rank, height, order1, found, colour) == FindParents(bags, rank, height, order2, found, colour)
  {
    ParentsAreAncestors(bags, rank, height, order1, found, colour);
    ParentsAreAncestors(bags, rank, height, order2, found, colour);
  }

  /** A colour is never counted among its own containers. */
  lemma NotOwnParent(bags: Bags, rank: map<string, nat>, height: nat, order: seq<string>, colour: string)
    requires Ranked(bags, rank, height) && IsKeyOrder(bags, order)
    ensures colour !in FindParents(bags, rank, height, order, {}, colour)
  {
    ParentsAreAncestors(bags, rank, height, order, {}, colour);
    if Within(bags, rank, height, colour, colour) {
      WithinLowers(bags, rank, height, colour, colour);
    }
  }

  // ---------------------------------------------------------------------------
  // The worked example
  // ---------------------------------------------------------------------------

  const Gold: string := "shiny gold"

  /** The example's nine rules. */
  const SampleBags := Bags(map[
    "light red" := [Content(1, "bright white"), Content(2, "muted yellow")],
    "dark orange" := [Content(3, "bright white"), Content(4, "muted yellow")],
    "bright white" := [Content(1, Gold)],
    "muted yellow" := [Content(2, Gold), Content(9, "faded blue")],
    Gold := [Content(1, "dark olive"), Content(2, "vibrant plum")],
    "dark olive" := [Content(3, "faded blue"), Content(4, "dotted black")],
    "vibrant plum" := [Content(5, "faded blue"), Content(6, "dotted black")],
    "faded blue" := [],
    "dotted black" := []])

  /** Ranks witnessing that the example's rules have no cycle. */
  const SampleRank: map<string, nat> := map[
    "light red" := 4, "dark orange" := 4, "bright white" := 3, "muted yellow" := 3, Gold := 2,
    "dark olive" := 1, "vibrant plum" := 1, "faded blue" := 0, "dotted black" := 0]

  /** The example's colours. */
  lemma SampleKeys()
    ensures SampleBags.rules.Keys == SampleRank.Keys
  {
  }

  lemma SampleRanked()
    ensures Ranked(SampleBags, SampleRank, 5) && Closed(SampleBags)
  {
    SampleKeys();
    forall k | k in SampleBags.rules
      ensures k in SampleRank && SampleRank[k] < 5
      ensures forall i :: 0 <= i < |SampleBags.rules[k]| ==>
                SampleBags.rules[k][i].colour in SampleRank && SampleRank[SampleBags.rules[k][i].colour] < SampleRank[k]
    {
    }
  }

  /** `gold_find` on a rule with two entries. */
  lemma GoldOfTwo(bags: Bags, rank: map<string, nat>, height: nat, colour: string,
                  n0: nat, c0: string, n1: nat, c1: string)
    requires Ranked(bags, rank, height) && Closed(bags) && colour in bags.rules
    requires bags.rules[colour] == [Content(n0, c0), Content(n1, c1)]
    ensures c0 in bags.rules && c1 in bags.rules
    ensures GoldFind(bags, rank, height, colour) ==
              n0 + n0 * GoldFind(bags, rank, height, c0) + n1 + n1 * GoldFind(bags, rank, height, c1)
  {
    var e := bags.rules[colour];
    var top := rank[colour];
    assert e[0].colour == c0 && e[1].colour == c1;
    var g0, g1 := GoldFind(bags, rank, height, c0), GoldFind(bags, rank, height, c1);
    assert e[1..][0] == e[1] && e[1..][1..] == [];
    assert GoldFrom(bags, rank, height, e[1..][1..], top) == 0;
    assert GoldFrom(bags, rank, height, e[1..], top) == n1 + n1 * g1;
    assert GoldFrom(bags, rank, height, e, top) == n0 + n0 * g0 + GoldFrom(bags, rank, height, e[1..], top);
  }

  /** The example's bags that hold nothing. */
  lemma SampleLeaves(rank: map<string, nat>, height: nat)
    requires Ranked(SampleBags, rank, height) && Closed(SampleBags)
    ensures GoldFind(SampleBags, rank, height, "faded blue") == 0
    ensures GoldFind(SampleBags, rank, height, "dotted black") == 0
  {
    var r: map<string, seq<Content>> := SampleBags.rules;
    assert r["faded blue"] == [] && r["dotted black"] == [];
  }

  /** A dark olive bag holds 7 bags. */
  lemma SampleOlive(rank: map<string, nat>, height: nat)
    requires Ranked(SampleBags, rank, height) && Closed(SampleBags)
    ensures GoldFind(SampleBags, rank, height, "dark olive") == 7
  {
    SampleLeaves(rank, height);
    GoldOfTwo(SampleBags, rank, height, "dark olive", 3, "faded blue", 4, "dotted black");
  }

  /** A vibrant plum bag holds 11 bags. */
  lemma SamplePlum(rank: map<string, nat>, height: nat)
    requires Ranked(SampleBags, rank, height) && Closed(SampleBags)
    ensures GoldFind(SampleBags, rank, height, "vibrant plum") == 11
  {
    SampleLeaves(rank, height);
    GoldOfTwo(SampleBags, rank, height, "vibrant plum", 5, "faded blue", 6, "dotted black");
  }

  /** A bag of shiny gold holds 32 bags, under any ranking of the rules. */
  lemma SampleGold(rank: map<string, nat>, height: nat)
    requires Ranked(SampleBags, rank, height) && Closed(SampleBags)
    ensures GoldFind(SampleBags, rank, height, Gold) == 32
  {
    SampleOlive(rank, height);
    SamplePlum(rank, height);
    GoldOfTwo(SampleBags, rank, height, Gold, 1, "dark olive", 2, "vibrant plum");
  }

  /** The colours that eventually hold a shiny gold bag in the example. */
  const SampleContainers: set<string> := {"bright white", "muted yellow", "light red", "dark orange"}

  /** A bag whose `i`-th entry is colour `c` holds `c`. */
  lemma HoldsDirectly(bags: Bags, rank: map<string, nat>, height: nat, k: string, c: string, i: nat)
    requires Ranked(bags, rank, height) && k in bags.rules && i < |bags.rules[k]| && bags.rules[k][i].colour == c
    ensures Within(bags, rank, height, k, c)
  {
  }

  /** A bag whose `i`-th entry is a colour holding `c` holds `c`. */
  lemma HoldsVia(bags: Bags, rank: map<string, nat>, height: nat, k: string, d: string, c: string, i: nat)
    requires Ranked(bags, rank, height) && k in bags.rules && i < |bags.rules[k]| && bags.rules[k][i].colour == d
    requires Within(bags, rank, height, d, c)
    ensures Within(bags, rank, height, k, c)
  {
  }

  /** Bright white and muted yellow bags hold a shiny gold bag first. */
  lemma SampleHoldsGold(rank: map<string, nat>, height: nat, k: string)
    requires Ranked(SampleBags, rank, height) && k in {"bright white", "muted yellow"}
    ensures Within(SampleBags, rank, height, k, Gold)
  {
    var r: map<string, seq<Content>> := SampleBags.rules;
    assert r[k][0].colour == Gold;
    HoldsDirectly(SampleBags, rank, height, k, Gold, 0);
  }

  /** Light red and dark orange bags hold a bright white bag first, and so a
      shiny gold one. */
  lemma SampleHoldsWhite(rank: map<string, nat>, height: nat, k: string)
    requires Ranked(SampleBags, rank, height) && k in {"light red", "dark orange"}
    ensures Within(SampleBags, rank, height, k, Gold)
  {
    var r: map<string, seq<Content>> := SampleBags.rules;
    SampleHoldsGold(rank, height, "bright white");
    assert r[k][0].colour == "bright white";
    HoldsVia(SampleBags, rank, height, k, "bright white", Gold, 0);
  }

  lemma SampleContainersHold(rank: map<string, nat>, height: nat)
    requires Ranked(SampleBags, rank, height)
    ensures forall k :: k in SampleContainers ==> k in SampleBags.rules && Within(SampleBags, rank, height, k, Gold)
  {
    SampleHoldsGold(rank, height, "bright white");
    SampleHoldsGold(rank, height, "muted yellow");
    SampleHoldsWhite(rank, height, "light red");
    SampleHoldsWhite(rank, height, "dark orange");
  }

  /** A bag holding nothing holds no shiny gold bag. */
  lemma EmptyHoldsNothing(bags: Bags, rank: map<string, nat>, height: nat, k: string, c: string)
    requires Ranked(bags, rank, height) && k in bags.rules && bags.rules[k] == []
    ensures !Within(bags, rank, height, k, c)
  {
  }

  /** A bag that is itself inside a bag of colour `c` cannot hold `c`. */
  lemma InsideHoldsNot(bags: Bags, rank: map<string, nat>, height: nat, k: string, c: string, i: nat)
    requires Ranked(bags, rank, height) && c in bags.rules && i < |bags.rules[c]| && bags.rules[c][i].colour == k
    ensures !Within(bags, rank, height, k, c)
  {
    if Within(bags, rank, height, k, c) {
      WithinLowers(bags, rank, height, k, c);
    }
  }

  lemma SampleOthersHoldNot(rank: map<string, nat>, height: nat)
    requires Ranked(SampleBags, rank, height)
    ensures !Within(SampleBags, rank, height, Gold, Gold)
    ensures !Within(SampleBags, rank, height, "dark olive", Gold)
    ensures !Within(SampleBags, rank, height, "vibrant plum", Gold)
    ensures !Within(SampleBags, rank, height, "faded blue", Gold)
    ensures !Within(SampleBags, rank, height, "dotted black", Gold)
  {
    var r: map<string, seq<Content>> := SampleBags.rules;
    if Within(SampleBags, rank, height, Gold, Gold) {
      WithinLowers(SampleBags, rank, height, Gold, Gold);
    }
    assert r[Gold][0].colour == "dark olive" && r[Gold][1].colour == "vibrant plum";
    InsideHoldsNot(SampleBags, rank, height, "dark olive", Gold, 0);
    InsideHoldsNot(SampleBags, rank, height, "vibrant plum", Gold, 1);
    EmptyHoldsNothing(SampleBags, rank, height, "faded blue", Gold);
    EmptyHoldsNothing(SampleBags, rank, height, "dotted black", Gold);
  }

  /** Exactly four colours eventually hold a shiny gold bag, under any
      ranking and any visiting order. */
  lemma SampleSilver(rank: map<string, nat>, height: nat, order: seq<string>)
    requires Ranked(SampleBags, rank, height) && IsKeyOrder(SampleBags, order)
    ensures FindParents(SampleBags, rank, height, order, {}, Gold) == SampleContainers
    ensures SilverFind(SampleBags, rank, height, order, Gold) == 4
  {
    SampleAncestors(rank, height);
    ParentsAreAncestors(SampleBags, rank, height, order, {}, Gold);
    SampleContainersSize();
  }

  lemma SampleAncestors(rank: map<string, nat>, height: nat)
    requires Ranked(SampleBags, rank, height)
    ensures Ancestors(SampleBags, rank, height, Gold) == SampleContainers
  {
    SampleContainersAreAncestors(rank, height);
    SampleAncestorsAreContainers(rank, height);
  }

  lemma SampleContainersAreAncestors(rank: map<string, nat>, height: nat)
    requires Ranked(SampleBags, rank, height)
    ensures SampleContainers <= Ancestors(SampleBags, rank, height, Gold)
  {
    SampleContainersHold(rank, height);
    SampleKeyList();
    AncestorsContain(SampleBags, rank, height, Gold, SampleContainers);
  }

  /** Colours with rules that hold `c` are among its containers. */
  lemma AncestorsContain(bags: Bags, rank: map<string, nat>, height: nat, c: string, s: set<string>)
    requires Ranked(bags, rank, height)
    requires forall k :: k in s ==> k in bags.rules && Within(bags, rank, height, k, c)
    ensures s <= Ancestors(bags, rank, height, c)
  {
  }

  lemma SampleAncestorsAreContainers(rank: map<string, nat>, height: nat)
    requires Ranked(SampleBags, rank, height)
    ensures Ancestors(SampleBags, rank, height, Gold) <= SampleContainers
  {
    SampleOthersHoldNot(rank, height);
    SampleKeyList();
  }

  /** The example's colours: the four containers and five others. */
  lemma SampleKeyList()
    ensures forall k :: k in SampleBags.rules ==>
              k in SampleContainers || k in {Gold, "dark olive", "vibrant plum", "faded blue", "dotted black"}
    ensures SampleContainers <= SampleBags.rules.Keys
  {
  }

  lemma SampleContainersSize()
    ensures |SampleContainers| == 4
  {
  }
}
