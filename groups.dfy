// Connected groups and their liberties: the flood fill of
// find_connect_group, the liberty collection of check_liberty, and the
// per-colour group, liberty and group-size scans used by the evaluator.
module Groups {
  import opened Seqs
  import opened Board

  // ---------------------------------------------------------------------
  // Specification: a group is the least set that contains the start cell and
  // is closed under stepping to an orthogonal neighbour holding the colour.
  // ---------------------------------------------------------------------

  ghost function AllPositions(): set<Pos> {
    set r: int, c: int | 0 <= r < 5 && 0 <= c < 5 :: Pos(r, c)
  }

  lemma InAllPositions(p: Pos)
    ensures p in AllPositions()
  {
    assert Pos(p.row as int, p.col as int) == p;
  }

  /** The board has 25 cells. */
  lemma AllPositionsCard()
    ensures |AllPositions()| == CELLS
  {
    var e: Board := seq(5, r => seq(5, c => EMPTY));
    var cells := Scan(e, EMPTY, CELLS);
    ScanAll(e, EMPTY);
    ScanFull(e, EMPTY, CELLS);
    assert forall i | 0 <= i < CELLS :: At(e, CellAt(i)) == EMPTY;
    forall p | p in Elems(cells) ensures p in AllPositions() {
      InAllPositions(p);
    }
    assert Elems(cells) == AllPositions();
    DistinctCard(cells);
  }

  /** A duplicate-free list of 24 cells without x holds every cell but x. */
  lemma AllButOne(s: seq<Pos>, x: Pos)
    requires Distinct(s) && |s| == CELLS - 1 && x !in s
    ensures forall q: Pos | q != x :: q in s
  {
    AllPositionsCard();
    DistinctCard(s);
    forall q: Pos | q != x ensures q in s {
      if q !in s {
        forall p | p in Elems(s) ensures p in AllPositions() - {x, q} {
          InAllPositions(p);
        }
        InAllPositions(x);
        InAllPositions(q);
        SubsetCard(Elems(s), AllPositions() - {x, q});
        assert false;
      }
    }
  }

  /** No same-colour neighbour of a member is left out. */
  ghost predicate Closed(b: Board, c: int, s: set<Pos>) {
    forall p, q | p in s && q in Neighbors(p) && At(b, q) == c :: q in s
  }

  /** One round of the flood fill: s with the same-colour neighbours of its members. */
  ghost function Expand(b: Board, c: int, s: set<Pos>): set<Pos> {
    s + set p, q | p in s && q in Neighbors(p) && At(b, q) == c :: q
  }

  lemma ExpandProps(b: Board, c: int, s: set<Pos>)
    ensures s <= Expand(b, c, s)
    ensures Expand(b, c, s) == s <==> Closed(b, c, s)
    ensures forall q | q in Expand(b, c, s) && q !in s :: At(b, q) == c
  {
  }

  /** Expand repeatedly until nothing changes. */
  ghost function Closure(b: Board, c: int, s: set<Pos>): set<Pos>
    decreases AllPositions() - s
  {
    var e := Expand(b, c, s);
    if e == s then s
    else
      ExpandProps(b, c, s);
      var q :| q in e && q !in s;
      InAllPositions(q);
      Closure(b, c, e)
  }

  /** The closure contains the seed, is closed, and adds only cells of colour c. */
  lemma {:induction false} ClosureProps(b: Board, c: int, s: set<Pos>)
    ensures s <= Closure(b, c, s) && Closed(b, c, Closure(b, c, s))
    ensures forall q | q in Closure(b, c, s) && q !in s :: At(b, q) == c
    decreases AllPositions() - s
  {
    var e := Expand(b, c, s);
    ExpandProps(b, c, s);
    if e != s {
      var q :| q in e && q !in s;
      InAllPositions(q);
      ClosureProps(b, c, e);
    }
  }

  /** The closure is contained in every closed superset of the seed. */
  lemma {:induction false} ClosureLeast(b: Board, c: int, s: set<Pos>, t: set<Pos>)
    requires s <= t && Closed(b, c, t)
    ensures Closure(b, c, s) <= t
    decreases AllPositions() - s
  {
    var e := Expand(b, c, s);
    ExpandProps(b, c, s);
    if e != s {
      var q :| q in e && q !in s;
      InAllPositions(q);
      ClosureLeast(b, c, e, t);
    }
  }

  /** The connected group of `start` for colour c (the start cell joins it
      whatever it holds). */
  ghost function Group(b: Board, start: Pos, c: int): set<Pos> {
    Closure(b, c, {start})
  }

  lemma GroupProps(b: Board, start: Pos, c: int)
    ensures start in Group(b, start, c) && Closed(b, c, Group(b, start, c))
    ensures forall q | q in Group(b, start, c) && q != start :: At(b, q) == c
  {
    ClosureProps(b, c, {start});
  }

  lemma GroupStart(b: Board, start: Pos, c: int)
    ensures start in Group(b, start, c)
  {
    GroupProps(b, start, c);
  }

  /** The same-colour neighbours of a member of the group are members. */
  lemma GroupStep(b: Board, start: Pos, c: int, current: Pos, same: seq<Pos>)
    requires current in Group(b, start, c)
    requires forall q | q in same :: Adjacent(current, q) && At(b, q) == c
    ensures Elems(same) <= Group(b, start, c)
  {
    GroupProps(b, start, c);
    forall q | q in same ensures q in Group(b, start, c) {
      assert q in Neighbors(current);
    }
  }

  lemma GroupLeast(b: Board, start: Pos, c: int, t: set<Pos>)
    requires start in t && Closed(b, c, t)
    ensures Group(b, start, c) <= t
  {
    ClosureLeast(b, c, {start}, t);
  }

  /** Every member of a closure of s can reach back to s0 when every member
      of s can: connectivity is symmetric. */
  lemma {:induction false} ClosureReachesBack(b: Board, c: int, s0: Pos, s: set<Pos>)
    requires forall t | t in s :: At(b, t) == c && s0 in Group(b, t, c)
    ensures forall q | q in Closure(b, c, s) :: s0 in Group(b, q, c)
    decreases AllPositions() - s
  {
    var e := Expand(b, c, s);
    ExpandProps(b, c, s);
    if e != s {
      forall q | q in e
        ensures At(b, q) == c && s0 in Group(b, q, c)
      {
        if q !in s {
          var t :| t in s && q in Neighbors(t) && At(b, q) == c;
          NeighborsSymmetric(t, q);
          GroupProps(b, q, c);
          assert t in Group(b, q, c);
          GroupLeast(b, t, c, Group(b, q, c));
        }
      }
      var q :| q in e && q !in s;
      InAllPositions(q);
      ClosureReachesBack(b, c, s0, e);
    }
  }

  /** Flood fill from any stone of a group finds the same group. */
  lemma GroupOfMember(b: Board, s0: Pos, s: Pos, c: int)
    requires At(b, s0) == c && s in Group(b, s0, c)
    ensures Group(b, s, c) == Group(b, s0, c)
  {
    GroupProps(b, s0, c);
    GroupLeast(b, s, c, Group(b, s0, c));
    GroupProps(b, s, c);
    ClosureReachesBack(b, c, s0, {s0});
    GroupLeast(b, s0, c, Group(b, s, c));
  }

  /** A group depends only on which cells hold its colour. */
  lemma {:induction false} ClosureSameMask(b1: Board, b2: Board, c: int, s: set<Pos>)
    requires forall q: Pos :: (At(b1, q) == c) == (At(b2, q) == c)
    ensures Closure(b1, c, s) == Closure(b2, c, s)
    decreases AllPositions() - s
  {
    var e := Expand(b1, c, s);
    assert e == Expand(b2, c, s);
    ExpandProps(b1, c, s);
    if e != s {
      var q :| q in e && q !in s;
      InAllPositions(q);
      ClosureSameMask(b1, b2, c, e);
    }
  }

  lemma GroupSameMask(b1: Board, b2: Board, start: Pos, c: int)
    requires forall q: Pos :: (At(b1, q) == c) == (At(b2, q) == c)
    ensures Group(b1, start, c) == Group(b2, start, c)
  {
    ClosureSameMask(b1, b2, c, {start});
  }

  /** The empty orthogonal neighbours of the members of g. */
  ghost function Liberties(b: Board, g: set<Pos>): set<Pos> {
    set p, q | p in g && q in Neighbors(p) && At(b, q) == EMPTY :: q
  }

  /** What check_liberty returns, as a set: place c at p on a copy of the
      board, then take the liberties of the group of p there. */
  ghost function LibertiesAt(b: Board, p: Pos, c: int): set<Pos> {
    var next := Place(b, p, c);
    Liberties(next, Group(next, p, c))
  }

  /** The stones of colour c. */
  ghost function Stones(b: Board, c: int): set<Pos> {
    set s | s in AllPositions() && At(b, s) == c
  }

  /** The distinct groups of colour c. */
  ghost function AllGroups(b: Board, c: int): set<set<Pos>> {
    set s | s in Stones(b, c) :: Group(b, s, c)
  }

  /** The groups of a colour partition its stones. */
  lemma GroupsPartition(b: Board, c: int)
    ensures forall g | g in AllGroups(b, c) :: g != {} && g <= Stones(b, c)
    ensures forall s | s in Stones(b, c) :: Group(b, s, c) in AllGroups(b, c)
    ensures forall g, s | g in AllGroups(b, c) && s in g :: g == Group(b, s, c)
  {
    forall g | g in AllGroups(b, c) ensures g != {} && g <= Stones(b, c) {
      var s0 :| s0 in Stones(b, c) && g == Group(b, s0, c);
      GroupProps(b, s0, c);
      forall q | q in g ensures q in Stones(b, c) {
        InAllPositions(q);
      }
    }
    forall g, s | g in AllGroups(b, c) && s in g ensures g == Group(b, s, c) {
      var s0 :| s0 in Stones(b, c) && g == Group(b, s0, c);
      GroupOfMember(b, s0, s, c);
    }
    forall s | s in Stones(b, c) ensures Group(b, s, c) in AllGroups(b, c) {
    }
  }

  /** Largest size among a set of groups; 0 when there is none. */
  ghost function MaxCard(gs: set<set<Pos>>): (m: nat)
    ensures forall g | g in gs :: |g| <= m
    ensures gs == {} ==> m == 0
    ensures gs != {} ==> exists g :: g in gs && |g| == m
  {
    if gs == {} then 0
    else
      var g :| g in gs;
      var rest := MaxCard(gs - {g});
      if |g| > rest then |g| else rest
  }

  /** What check_connectedness computes: the size of the largest group. */
  ghost function MaxGroupSize(b: Board, c: int): nat {
    MaxCard(AllGroups(b, c))
  }

  // ---------------------------------------------------------------------
  // The engine's procedures.
  // ---------------------------------------------------------------------

  /** The test of find_same_color_neighbor: the cell holds c. */
  ghost function Holds(b: Board, c: int): Pos -> bool {
    q => At(b, q) == c
  }

  /** find_same_color_neighbor: the neighbours holding c, in the order
      find_neighbor lists them. */
  method FindSameColorNeighbor(b: Board, p: Pos, c: int) returns (same: seq<Pos>)
    ensures forall q: Pos :: q in same <==> Adjacent(p, q) && At(b, q) == c
    ensures Subseq(same, Neighbors(p)) && Distinct(same)
  {
    var neighbors := Neighbors(p);
    same := [];
    for k := 0 to |neighbors|
      invariant same == Filter(Holds(b, c), neighbors[..k])
    {
      FilterPrefix(Holds(b, c), neighbors, k);
      if At(b, neighbors[k]) == c {
        same := same + [neighbors[k]];
      }
    }
    assert neighbors[..|neighbors|] == neighbors;
    FilterSpec(Holds(b, c), neighbors);
    SubseqDistinct(same, neighbors);
  }

  /** Every same-colour neighbour of a cell of `done` is in `seen`. */
  ghost predicate Explored(b: Board, c: int, done: set<Pos>, seen: set<Pos>) {
    forall p, q | p in done && q in Neighbors(p) && At(b, q) == c :: q in seen
  }

  lemma ExploredAdd(b: Board, c: int, done: set<Pos>, seen: set<Pos>, x: Pos)
    requires Explored(b, c, done, seen)
    requires forall q: Pos | Adjacent(x, q) && At(b, q) == c :: q in seen
    ensures Explored(b, c, done + {x}, seen)
  {
  }

  /** The inner loop of find_connect_group: push every same-colour
      neighbour that is neither in the group nor waiting already. */
  method PushUnvisited(group: seq<Pos>, unvisited: seq<Pos>, same: seq<Pos>) returns (r: seq<Pos>)
    requires Distinct(unvisited) && forall q | q in group :: q !in unvisited
    ensures Distinct(r) && forall q | q in group :: q !in r
    ensures Elems(r) == Elems(unvisited) + (Elems(same) - Elems(group))
  {
    r := unvisited;
    for k := 0 to |same|
      invariant Distinct(r) && forall q | q in group :: q !in r
      invariant Elems(r) == Elems(unvisited) + (Elems(same[..k]) - Elems(group))
    {
      assert same[..k + 1] == same[..k] + [same[k]];
      assert Elems(same[..k + 1]) == Elems(same[..k]) + {same[k]};
      if same[k] !in group && same[k] !in r {
        assert Elems(r + [same[k]]) == Elems(r) + {same[k]};
        r := r + [same[k]];
      }
    }
    assert same[..|same|] == same;
  }

  /** find_connect_group: flood fill driven by an explicit stack. */
  method FindConnectGroup(b: Board, start: Pos, c: int) returns (group: seq<Pos>)
    ensures Elems(group) == Group(b, start, c)
    ensures Distinct(group) && group != [] && group[0] == start
  {
    var unvisited := [start];
    group := [];
    GroupStart(b, start, c);
    ghost var g := Group(b, start, c);
    while unvisited != []
      invariant Distinct(group) && Distinct(unvisited)
      invariant forall q | q in group :: q !in unvisited
      invariant group == [] ==> unvisited == [start]
      invariant group != [] ==> group[0] == start
      invariant Elems(group) + Elems(unvisited) <= g
      invariant Explored(b, c, Elems(group), Elems(group) + Elems(unvisited))
      decreases AllPositions() - Elems(group)
    {
      var current := unvisited[|unvisited| - 1];
      ghost var before := Elems(group);
      MoveLast(group, unvisited);
      InAllPositions(current);
      unvisited := unvisited[..|unvisited| - 1];
      if current !in group {
        group := group + [current];
      }
      var same := FindSameColorNeighbor(b, current, c);
      GroupStep(b, start, c, current, same);
      unvisited := PushUnvisited(group, unvisited, same);
      ExploredAdd(b, c, before, Elems(group) + Elems(unvisited), current);
    }
    GroupLeast(b, start, c, Elems(group));
  }

  /** The members of qs that are empty. */
  ghost function EmptyAmong(b: Board, qs: seq<Pos>): set<Pos> {
    set q | q in qs && At(b, q) == EMPTY
  }

  lemma LibertiesMeaning(b: Board, g: set<Pos>)
    ensures forall q: Pos :: q in Liberties(b, g) <==> At(b, q) == EMPTY && exists m :: m in g && Adjacent(m, q)
  {
    forall q: Pos | At(b, q) == EMPTY && exists m :: m in g && Adjacent(m, q)
      ensures q in Liberties(b, g)
    {
      var m :| m in g && Adjacent(m, q);
      assert q in Neighbors(m);
    }
  }

  lemma LibertiesInsert(b: Board, g: set<Pos>, x: Pos)
    ensures Liberties(b, g + {x}) == Liberties(b, g) + EmptyAmong(b, Neighbors(x))
  {
  }

  /** The inner loop of check_liberty: append the empty neighbours of m that
      are not listed yet. */
  method AddEmptyNeighbors(b: Board, liberty: seq<Pos>, m: Pos) returns (r: seq<Pos>)
    requires Distinct(liberty)
    ensures Distinct(r) && Elems(r) == Elems(liberty) + EmptyAmong(b, Neighbors(m))
  {
    r := liberty;
    var neighbors := Neighbors(m);
    for k := 0 to |neighbors|
      invariant Distinct(r)
      invariant Elems(r) == Elems(liberty) + EmptyAmong(b, neighbors[..k])
    {
      var q := neighbors[k];
      if At(b, q) == EMPTY && q !in r {
        assert Elems(r + [q]) == Elems(r) + {q};
        r := r + [q];
      }
      assert neighbors[..k + 1] == neighbors[..k] + [q];
      assert EmptyAmong(b, neighbors[..k + 1]) == EmptyAmong(b, neighbors[..k]) + (if At(b, q) == EMPTY then {q} else {});
    }
    assert neighbors[..|neighbors|] == neighbors;
  }

  /** check_liberty: the distinct empty neighbours of the group that the
      stone placed at p joins. */
  method CheckLiberty(b: Board, p: Pos, c: int) returns (liberty: seq<Pos>)
    ensures Elems(liberty) == LibertiesAt(b, p, c)
    ensures Distinct(liberty)
  {
    liberty := [];
    var next := Place(b, p, c);
    var group := FindConnectGroup(next, p, c);
    for i := 0 to |group|
      invariant Distinct(liberty)
      invariant Elems(liberty) == Liberties(next, Elems(group[..i]))
    {
      liberty := AddEmptyNeighbors(next, liberty, group[i]);
      assert Elems(group[..i + 1]) == Elems(group[..i]) + {group[i]};
      LibertiesInsert(next, Elems(group[..i]), group[i]);
    }
    assert group[..|group|] == group;
  }

  /** A cell is among check_liberty's result exactly when it is empty once
      the stone is placed and touches the group that stone joins. */
  lemma LibertiesAtMeaning(b: Board, p: Pos, c: int)
    ensures forall q: Pos :: q in LibertiesAt(b, p, c) <==>
              At(Place(b, p, c), q) == EMPTY && exists m :: m in Group(Place(b, p, c), p, c) && Adjacent(m, q)
  {
    LibertiesMeaning(Place(b, p, c), Group(Place(b, p, c), p, c));
  }

  /** A list of the members of a set, in no particular order: `list(group)`
      on a frozenset. */
  method ListOf(s: set<Pos>) returns (xs: seq<Pos>)
    ensures Elems(xs) == s && Distinct(xs)
  {
    xs := [];
    var rest := s;
    while rest != {}
      invariant Elems(xs) + rest == s && Distinct(xs)
      invariant forall q | q in xs :: q !in rest
      decreases rest
    {
      var q :| q in rest;
      xs := xs + [q];
      rest := rest - {q};
    }
  }

  /** The groups of the cells of ss. */
  ghost function GroupsOf(b: Board, c: int, ss: seq<Pos>): set<set<Pos>> {
    set s | s in ss :: Group(b, s, c)
  }

  /** The element sets of a list of lists. */
  ghost function ElemSets(gs: seq<seq<Pos>>): set<set<Pos>> {
    set g | g in gs :: Elems(g)
  }

  /** `[list(group) for group in connect_group_set]`: one duplicate-free
      list per set, in no particular order. */
  method ListsOf(found: set<set<Pos>>) returns (groups: seq<seq<Pos>>)
    requires forall g | g in found :: g != {}
    ensures ElemSets(groups) == found
    ensures forall i | 0 <= i < |groups| :: Distinct(groups[i]) && groups[i] != []
    ensures forall i, j | 0 <= i < j < |groups| :: Elems(groups[i]) != Elems(groups[j])
  {
    groups := [];
    var rest := found;
    while rest != {}
      invariant ElemSets(groups) + rest == found && rest <= found
      invariant forall i | 0 <= i < |groups| :: Distinct(groups[i]) && groups[i] != []
      invariant forall i | 0 <= i < |groups| :: Elems(groups[i]) !in rest
      invariant forall i, j | 0 <= i < j < |groups| :: Elems(groups[i]) != Elems(groups[j])
      decreases rest
    {
      var g :| g in rest;
      var list := ListOf(g);
      assert list != [] by { var x :| x in g; assert x in Elems(list); }
      assert ElemSets(groups + [list]) == ElemSets(groups) + {g};
      groups := groups + [list];
      rest := rest - {g};
    }
  }

  /** find_all_connect_group: one list per distinct group of colour c, in no
      particular order (the source goes through a set of frozensets). */
  method FindAllConnectGroup(b: Board, c: int) returns (groups: seq<seq<Pos>>)
    ensures ElemSets(groups) == AllGroups(b, c)
    ensures forall i | 0 <= i < |groups| :: Distinct(groups[i]) && groups[i] != []
    ensures forall i, j | 0 <= i < j < |groups| :: Elems(groups[i]) != Elems(groups[j])
  {
    var sameColor := CollectCells(b, c);
    var found: set<set<Pos>> := {};
    for i := 0 to |sameColor|
      invariant found == GroupsOf(b, c, sameColor[..i])
    {
      var group := FindConnectGroup(b, sameColor[i], c);
      found := found + {Elems(group)};
      assert sameColor[..i + 1] == sameColor[..i] + [sameColor[i]];
      assert GroupsOf(b, c, sameColor[..i + 1]) == GroupsOf(b, c, sameColor[..i]) + {Group(b, sameColor[i], c)};
    }
    assert sameColor[..|sameColor|] == sameColor;
    StonesScanned(b, c);
    assert found == AllGroups(b, c);
    GroupsPartition(b, c);
    groups := ListsOf(found);
  }

  lemma StonesScanned(b: Board, c: int)
    ensures forall s: Pos :: s in Stones(b, c) <==> s in Scan(b, c, CELLS)
  {
    ScanSpec(b, c, CELLS);
    forall s: Pos ensures s in Stones(b, c) <==> s in Scan(b, c, CELLS) {
      InAllPositions(s);
    }
  }

  /** Liberties distribute over unions of groups. */
  lemma LibertiesUnion(b: Board, g1: set<Pos>, g2: set<Pos>)
    ensures Liberties(b, g1 + g2) == Liberties(b, g1) + Liberties(b, g2)
  {
  }

  /** The inner loop of find_all_liberty: append the members of xs that are
      not listed yet. */
  method AppendNew(all: seq<Pos>, xs: seq<Pos>) returns (r: seq<Pos>)
    requires Distinct(all)
    ensures Distinct(r) && Elems(r) == Elems(all) + Elems(xs)
  {
    r := all;
    for k := 0 to |xs|
      invariant Distinct(r) && Elems(r) == Elems(all) + Elems(xs[..k])
    {
      if xs[k] !in r {
        assert Elems(r + [xs[k]]) == Elems(r) + {xs[k]};
        r := r + [xs[k]];
      }
      assert xs[..k + 1] == xs[..k] + [xs[k]];
    }
    assert xs[..|xs|] == xs;
  }

  /** check_liberty started on a stone of a group finds that group's liberties. */
  lemma LibertiesAtMember(b: Board, g: set<Pos>, s: Pos, c: int)
    requires g in AllGroups(b, c) && s in g
    ensures LibertiesAt(b, s, c) == Liberties(b, g)
  {
    GroupsPartition(b, c);
    assert At(b, s) == c;
    BoardExt(Place(b, s, c), b);
  }

  lemma GroupInStones(b: Board, c: int, g: set<Pos>)
    requires g in AllGroups(b, c)
    ensures g <= Stones(b, c)
  {
    GroupsPartition(b, c);
  }

  /** The cells listed in any of the lists gs. */
  ghost function Union(gs: seq<seq<Pos>>): set<Pos> {
    if gs == [] then {} else Union(gs[..|gs| - 1]) + Elems(gs[|gs| - 1])
  }

  lemma {:induction false} UnionMember(gs: seq<seq<Pos>>, j: int)
    requires 0 <= j < |gs|
    ensures Elems(gs[j]) <= Union(gs)
  {
    if j < |gs| - 1 {
      assert gs[..|gs| - 1][j] == gs[j];
      UnionMember(gs[..|gs| - 1], j);
    }
  }

  /** Lists whose element sets are the groups of c cover every stone of c. */
  lemma GroupsCoverStones(b: Board, c: int, groups: seq<seq<Pos>>)
    requires ElemSets(groups) == AllGroups(b, c)
    ensures Stones(b, c) <= Union(groups)
  {
    forall s | s in Stones(b, c) ensures s in Union(groups) {
      assert Group(b, s, c) in ElemSets(groups);
      var j :| 0 <= j < |groups| && Elems(groups[j]) == Group(b, s, c);
      GroupProps(b, s, c);
      UnionMember(groups, j);
    }
  }

  /** find_all_liberty: every empty cell next to a stone of colour c, once. */
  method FindAllLiberty(b: Board, c: int) returns (all: seq<Pos>)
    ensures Distinct(all)
    ensures Elems(all) == Liberties(b, Stones(b, c))
  {
    var groups := FindAllConnectGroup(b, c);
    all := [];
    for i := 0 to |groups|
      invariant Distinct(all)
      invariant Union(groups[..i]) <= Stones(b, c)
      invariant Elems(all) == Liberties(b, Union(groups[..i]))
    {
      var group := groups[i];
      assert Elems(group) in ElemSets(groups);
      var first := group[0];
      var liberty := CheckLiberty(b, first, c);
      LibertiesAtMember(b, Elems(group), first, c);
      all := AppendNew(all, liberty);
      LibertiesUnion(b, Union(groups[..i]), Elems(group));
      GroupInStones(b, c, Elems(group));
      assert groups[..i + 1][..i] == groups[..i];
    }
    assert groups[..|groups|] == groups;
    GroupsCoverStones(b, c, groups);
  }

  /** The liberties of all stones of a colour are the empty cells next to one of them. */
  lemma StoneLiberties(b: Board, c: int)
    ensures forall q: Pos :: q in Liberties(b, Stones(b, c)) <==> At(b, q) == EMPTY && exists s :: At(b, s) == c && Adjacent(s, q)
  {
    LibertiesMeaning(b, Stones(b, c));
    forall s: Pos ensures s in Stones(b, c) <==> At(b, s) == c {
      InAllPositions(s);
    }
  }

  /** Two characterisations of the largest group size agree. */
  lemma MaxCardUnique(gs: set<set<Pos>>, m: nat)
    requires forall g | g in gs :: |g| <= m
    requires m == 0 || exists g :: g in gs && |g| == m
    ensures m == MaxCard(gs)
  {
  }

  /** The largest group size bounds the group of every stone of colour c,
      is reached by the group of some stone, and is 0 exactly when there is
      no stone of colour c. */
  lemma MaxGroupSizeMeaning(b: Board, c: int)
    ensures forall s | At(b, s) == c :: |Group(b, s, c)| <= MaxGroupSize(b, c)
    ensures MaxGroupSize(b, c) > 0 ==> exists s :: At(b, s) == c && |Group(b, s, c)| == MaxGroupSize(b, c)
    ensures MaxGroupSize(b, c) == 0 <==> forall s: Pos :: At(b, s) != c
  {
    GroupsPartition(b, c);
    forall s | At(b, s) == c ensures |Group(b, s, c)| <= MaxGroupSize(b, c) {
      InAllPositions(s);
    }
    if MaxGroupSize(b, c) > 0 {
      var g :| g in AllGroups(b, c) && |g| == MaxGroupSize(b, c);
      var s :| s in Stones(b, c) && g == Group(b, s, c);
      assert At(b, s) == c;
    } else {
      forall s: Pos ensures At(b, s) != c {
        InAllPositions(s);
        GroupProps(b, s, c);
      }
    }
  }

  /** check_connectedness: the size of the largest group of colour c, 0 when
      there is no stone of that colour. */
  method CheckConnectedness(b: Board, c: int) returns (m: nat)
    ensures m == MaxGroupSize(b, c)
  {
    var groups := FindAllConnectGroup(b, c);
    m := 0;
    for i := 0 to |groups|
      invariant forall j | 0 <= j < i :: |groups[j]| <= m
      invariant m == 0 || exists j :: 0 <= j < i && |groups[j]| == m
    {
      if |groups[i]| > m {
        m := |groups[i]|;
      }
    }
    forall g | g in AllGroups(b, c) ensures |g| <= m {
      var j :| 0 <= j < |groups| && Elems(groups[j]) == g;
      DistinctCard(groups[j]);
    }
    if m != 0 {
      var j :| 0 <= j < |groups| && |groups[j]| == m;
      DistinctCard(groups[j]);
      assert Elems(groups[j]) in AllGroups(b, c);
    }
    MaxCardUnique(AllGroups(b, c), m);
  }
}
