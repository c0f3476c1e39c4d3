/** The consistent-hash ring: membership changes move no key they need not move, and every row has one owner. */
module ShardRing {
  import opened Base
  import opened Matcher
  import opened Sharding

  // ---- the order of ids ---------------------------------------------------

  predicate Before(a: string, b: string) {
    b != "" && (a == "" || a[0] < b[0] || (a[0] == b[0] && Before(a[1..], b[1..])))
  }

  lemma {:induction false} BeforeIsTotal(a: string, b: string)
    ensures a == b || Before(a, b) || Before(b, a)
    ensures !(Before(a, b) && Before(b, a)) && !Before(a, a)
  {
    if a != "" && b != "" {
      BeforeIsTotal(a[1..], b[1..]);
      BeforeIsTotal(a[1..], a[1..]);
      assert a == [a[0]] + a[1..] && b == [b[0]] + b[1..];
    } else if a != "" {
      BeforeIsTotal(a[1..], a[1..]);
    }
  }

  lemma {:induction false} BeforeChains(a: string, b: string, c: string)
    requires Before(a, b) && Before(b, c)
    ensures Before(a, c)
  {
    if a != "" && a[0] == b[0] == c[0] {
      BeforeChains(a[1..], b[1..], c[1..]);
    }
  }

  // ---- the ring -----------------------------------------------------------

  /** Where the v-th virtual node of an id sits; any function, collisions included. */
  type Points = (string, nat) -> nat

  predicate HasPoint(point: Points, virtuals: nat, node: string, h: nat) {
    exists v :: 0 <= v < virtuals && point(node, v) == h
  }

  /** Every point of every node is taken, and where nodes collide the greatest id has it. */
  ghost predicate IsRing(point: Points, virtuals: nat, nodes: set<string>, ring: map<nat, string>) {
    && (forall n, v :: n in nodes && 0 <= v < virtuals ==> point(n, v) in ring)
    && (forall h :: h in ring ==>
          && ring[h] in nodes && HasPoint(point, virtuals, ring[h], h)
          && forall n :: n in nodes && HasPoint(point, virtuals, n, h) ==> n == ring[h] || Before(n, ring[h]))
  }

  /** A ring is determined by the set of ids. */
  lemma {:induction false} RingIsUnique(point: Points, virtuals: nat, nodes: set<string>, a: map<nat, string>,
                                        b: map<nat, string>)
    requires IsRing(point, virtuals, nodes, a) && IsRing(point, virtuals, nodes, b)
    ensures a == b
  {
    assert forall h :: h in a ==> exists v :: 0 <= v < virtuals && point(a[h], v) == h;
    assert forall h :: h in b ==> exists v :: 0 <= v < virtuals && point(b[h], v) == h;
    forall h | h in a
      ensures h in b && a[h] == b[h]
    {
      BeforeIsTotal(a[h], b[h]);
    }
  }

  /** The first point at or after k, wrapping to the first one. */
  function Successor(points: set<nat>, k: nat): (p: nat)
    requires points != {}
    ensures p in points
  {
    var later := set h | h in points && h >= k;
    if later == {} then Least(points) else Least(later)
  }

  function OwnerOfHash(ring: map<nat, string>, k: nat): (r: Result<string>)
    ensures r.Err? <==> ring == map[]
  {
    if ring == map[] then Err(FailedPrecondition) else Ok(ring[Successor(ring.Keys, k)])
  }

  lemma {:induction false} SuccessorInSubset(points: set<nat>, fewer: set<nat>, k: nat)
    requires points != {} && fewer <= points && Successor(points, k) in fewer
    ensures Successor(fewer, k) == Successor(points, k)
  {
    var p := Successor(points, k);
    var later, later' := set h | h in points && h >= k, set h | h in fewer && h >= k;
    if later == {} {
      assert later' == {};
      assert Least(fewer) in points;
    } else {
      assert p in later' && Least(later') in later;
    }
  }

  /** Removing a node changes the owner of no key but its own. */
  lemma {:induction false} RemovalMovesOnlyItsKeys(point: Points, virtuals: nat, nodes: set<string>, n: string,
                                                   ring: map<nat, string>, ring': map<nat, string>, k: nat)
    requires IsRing(point, virtuals, nodes, ring) && IsRing(point, virtuals, nodes - {n}, ring')
    requires ring != map[] && OwnerOfHash(ring, k) != Ok(n)
    ensures OwnerOfHash(ring', k) == OwnerOfHash(ring, k)
  {
    var p := Successor(ring.Keys, k);
    var m := ring[p];
    var v :| 0 <= v < virtuals && point(m, v) == p;
    assert m in nodes - {n} && p in ring';
    assert ring'.Keys <= ring.Keys by {
      forall h | h in ring'
        ensures h in ring
      {
        var u :| 0 <= u < virtuals && point(ring'[h], u) == h;
      }
    }
    SuccessorInSubset(ring.Keys, ring'.Keys, k);
    assert HasPoint(point, virtuals, m, p) && HasPoint(point, virtuals, ring'[p], p);
    BeforeIsTotal(m, ring'[p]);
  }

  /** Adding a node moves keys only to it. */
  lemma {:induction false} AdditionMovesOnlyToIt(point: Points, virtuals: nat, nodes: set<string>, n: string,
                                                 ring: map<nat, string>, ring': map<nat, string>, k: nat)
    requires n !in nodes && IsRing(point, virtuals, nodes, ring) && IsRing(point, virtuals, nodes + {n}, ring')
    requires ring' != map[]
    ensures OwnerOfHash(ring', k) == OwnerOfHash(ring, k) || OwnerOfHash(ring', k) == Ok(n)
  {
    assert nodes + {n} - {n} == nodes;
    if OwnerOfHash(ring', k) != Ok(n) {
      RemovalMovesOnlyItsKeys(point, virtuals, nodes + {n}, n, ring', ring, k);
    }
  }

  // ---- building it --------------------------------------------------------

  ghost predicate Ascending(ids: seq<string>) {
    forall i, j :: 0 <= i < j < |ids| ==> Before(ids[i], ids[j])
  }

  /** Puts an id in its place, once. */
  method InsertSorted(ids: seq<string>, id: string) returns (r: seq<string>)
    requires Ascending(ids)
    ensures Ascending(r) && Members(r) == Members(ids) + {id}
  {
    var i := 0;
    while i < |ids| && Before(ids[i], id)
      invariant 0 <= i <= |ids| && forall j :: 0 <= j < i ==> Before(ids[j], id)
    {
      i := i + 1;
    }
    if i < |ids| && ids[i] == id {
      return ids;
    }
    forall j | i <= j < |ids|
      ensures Before(id, ids[j])
    {
      BeforeIsTotal(ids[i], id);
      if j > i {
        BeforeChains(id, ids[i], ids[j]);
      }
    }
    r := ids[..i] + [id] + ids[i..];
  }

  class ShardMap {
    const point: Points
    const virtuals: nat
    var nodes: seq<string>
    var ring: map<nat, string>

    ghost predicate Valid()
      reads this
    {
      Ascending(nodes) && IsRing(point, virtuals, Members(nodes), ring)
    }

    constructor (point: Points, virtuals: nat)
      ensures this.point == point && this.virtuals == virtuals && Valid() && nodes == []
    {
      this.point, this.virtuals := point, virtuals;
      nodes, ring := [], map[];
    }

    method Rebuild()
      requires Ascending(nodes)
      modifies this`ring
      ensures Valid()
    {
      ring := map[];
      assert IsRing(point, virtuals, Members(nodes[..0]), ring);
      hide IsRing, Overwritten;
      for i := 0 to |nodes|
        invariant IsRing(point, virtuals, Members(nodes[..i]), ring)
      {
        ghost var before := ring;
        NothingOverwritten(point, nodes[i], before);
        for v := 0 to virtuals
          invariant Overwritten(point, v, nodes[i], before, ring)
        {
          OverwriteNext(point, v, nodes[i], before, ring);
          ring := ring[point(nodes[i], v) := nodes[i]];
        }
        AddGreater(point, virtuals, Members(nodes[..i]), nodes[i], before, ring);
        MembersNext(nodes, i);
      }
      assert nodes[..|nodes|] == nodes;
    }

    /** The ids in any order and with repetitions; only their set matters. */
    method SetNodes(ids: seq<string>)
      modifies this
      ensures Valid() && Members(nodes) == Members(ids)
    {
      var sorted: seq<string> := [];
      for i := 0 to |ids|
        invariant Ascending(sorted) && Members(sorted) == Members(ids[..i])
      {
        MembersNext(ids, i);
        sorted := InsertSorted(sorted, ids[i]);
      }
      assert ids[..|ids|] == ids;
      nodes := sorted;
      Rebuild();
    }
  }

  function Members(ids: seq<string>): (s: set<string>) {
    set n | n in ids
  }

  lemma {:induction false} MembersNext(ids: seq<string>, i: nat)
    requires i < |ids|
    ensures Members(ids[..i + 1]) == Members(ids[..i]) + {ids[i]}
  {
    assert ids[..i + 1] == ids[..i] + [ids[i]];
  }

  /** The first v points of a node written over a ring. */
  ghost predicate Overwritten(point: Points, v: nat, node: string, before: map<nat, string>, ring: map<nat, string>) {
    && (forall h :: h in ring <==> h in before || HasPoint(point, v, node, h))
    && (forall h :: h in ring ==> ring[h] == if HasPoint(point, v, node, h) then node else before[h])
  }

  lemma {:induction false} NothingOverwritten(point: Points, node: string, ring: map<nat, string>)
    ensures Overwritten(point, 0, node, ring, ring)
  {
  }

  lemma {:induction false} OverwriteNext(point: Points, v: nat, node: string, before: map<nat, string>, ring: map<nat,
                                         string>)
    requires Overwritten(point, v, node, before, ring)
    ensures Overwritten(point, v + 1, node, before, ring[point(node, v) := node])
  {
    forall h
      ensures HasPoint(point, v + 1, node, h) <==> HasPoint(point, v, node, h) || h == point(node, v)
    {
      if HasPoint(point, v + 1, node, h) {
        var u :| 0 <= u < v + 1 && point(node, u) == h;
        assert u < v || u == v;
      }
    }
  }

  lemma {:induction false} AddGreater(point: Points, virtuals: nat, nodes: set<string>, node: string,
                                      before: map<nat, string>, ring: map<nat, string>)
    requires IsRing(point, virtuals, nodes, before) && Overwritten(point, virtuals, node, before, ring)
    requires forall n :: n in nodes ==> Before(n, node)
    ensures IsRing(point, virtuals, nodes + {node}, ring)
  {
  }

  // ---- loading a shard ----------------------------------------------------

  /** The place of an id in the node list; the list's length if it is not there. */
  function PlaceOf(nodes: seq<string>, id: string): (i: nat)
    ensures i <= |nodes| && (i < |nodes| <==> id in nodes) && (i < |nodes| ==> nodes[i] == id)
  {
    if nodes == [] then 0 else if nodes[0] == id then 0 else 1 + PlaceOf(nodes[1..], id)
  }

  lemma {:induction false} PlaceIsOnly(nodes: seq<string>, i: nat)
    requires Ascending(nodes) && i < |nodes|
    ensures PlaceOf(nodes, nodes[i]) == i
  {
    if i > 0 {
      BeforeIsTotal(nodes[0], nodes[i]);
      assert Before(nodes[0], nodes[i]);
      PlaceIsOnly(nodes[1..], i - 1);
    }
  }

  /** The node, by its place, that a row with this key hash is loaded on; nobody's place on an empty ring. */
  function OwnerPlace(nodes: seq<string>, ring: map<nat, string>, k: nat): (i: nat) {
    match OwnerOfHash(ring, k) case Ok(id) => PlaceOf(nodes, id) case Err(_) => |nodes| + 1
  }

  /** The owner of each row, from the hash of its key. */
  function OwnerMap(nodes: seq<string>, ring: map<nat, string>, hashOf: nat -> nat): (owner: nat -> nat) {
    (r: nat) => OwnerPlace(nodes, ring, hashOf(r))
  }

  /** Every key has exactly one owner among the nodes. */
  lemma {:induction false} OneOwner(point: Points, virtuals: nat, nodes: seq<string>, ring: map<nat, string>, k: nat)
    requires Ascending(nodes) && IsRing(point, virtuals, Members(nodes), ring) && nodes != [] && virtuals > 0
    ensures OwnerPlace(nodes, ring, k) < |nodes|
    ensures forall i :: 0 <= i < |nodes| ==> (OwnerOfHash(ring, k) == Ok(nodes[i]) <==> i == OwnerPlace(nodes, ring, k))
  {
    assert nodes[0] in Members(nodes);
    assert point(nodes[0], 0) in ring;
    forall i | 0 <= i < |nodes|
      ensures OwnerOfHash(ring, k) == Ok(nodes[i]) <==> i == OwnerPlace(nodes, ring, k)
    {
      PlaceIsOnly(nodes, i);
    }
  }

  lemma {:induction false} HasOwner(point: Points, virtuals: nat, nodes: seq<string>, ring: map<nat, string>, k: nat)
    requires Ascending(nodes) && IsRing(point, virtuals, Members(nodes), ring) && nodes != [] && virtuals > 0
    ensures OwnerPlace(nodes, ring, k) < |nodes|
  {
    OneOwner(point, virtuals, nodes, ring, k);
  }

  /** The owner's place is an id's place exactly when the id is the owner; an id outside the list owns nothing. */
  lemma {:induction false} Owns(point: Points, virtuals: nat, nodes: seq<string>, ring: map<nat, string>, k: nat,
                                id: string)
    requires IsRing(point, virtuals, Members(nodes), ring)
    ensures OwnerOfHash(ring, k) == Ok(id) <==> OwnerPlace(nodes, ring, k) == PlaceOf(nodes, id)
    ensures OwnerOfHash(ring, k) == Ok(id) ==> id in nodes
  {
    if ring != map[] {
      var owner := ring[Successor(ring.Keys, k)];
      assert owner in Members(nodes);
      assert nodes[PlaceOf(nodes, owner)] == owner;
    }
  }

  /** Rows whose matcher keys agree go to one node when their hashed keys agree, so sharding by ring does not show. */
  lemma {:induction false} RingKeepsKeysTogether(point: Points, virtuals: nat, nodes: seq<string>, ring: map<nat,
                                                 string>,
                                                 table: Table, hashOf: nat -> nat)
    requires Ascending(nodes) && IsRing(point, virtuals, Members(nodes), ring) && nodes != [] && virtuals > 0
    requires forall r, r' :: 0 <= r < r' < |table.keys| && table.keys[r] == table.keys[r'] ==> hashOf(r) == hashOf(r')
    ensures KeyedOwner(table, OwnerMap(nodes, ring, hashOf), |nodes|)
  {
    hide IsRing, OwnerPlace;
    var owner := OwnerMap(nodes, ring, hashOf);
    forall r | 0 <= r < |table.keys|
      ensures owner(r) < |nodes|
    {
      HasOwner(point, virtuals, nodes, ring, hashOf(r));
    }
    forall r, r' | 0 <= r < r' < |table.keys| && table.keys[r] == table.keys[r']
      ensures owner(r) == owner(r')
    {
    }
  }

  lemma {:induction false} ShardNext(table: Table, owner: nat -> nat, s: nat, r: nat)
    requires r < |table.keys| == |table.rows|
    ensures var rest := Shard(table, owner, s, r);
            Shard(table, owner, s, r + 1)
            == if owner(r) == s then rest.(keys := rest.keys + [table.keys[r]], rows := rest.rows + [table.rows[r]])
                else rest
  {
  }

  /** One row of the filter. */
  method KeepIfMine(map_: ShardMap, table: Table, hashOf: nat -> nat, id: string, r: nat, mine: Table)
      returns (more: Table)
    requires map_.Valid() && r < |table.keys| == |table.rows|
    requires mine == Shard(table, OwnerMap(map_.nodes, map_.ring, hashOf), PlaceOf(map_.nodes, id), r)
    ensures more == Shard(table, OwnerMap(map_.nodes, map_.ring, hashOf), PlaceOf(map_.nodes, id), r + 1)
  {
    hide OwnerOfHash, OwnerPlace, PlaceOf, Shard, IsRing, Ascending;
    Owns(map_.point, map_.virtuals, map_.nodes, map_.ring, hashOf(r), id);
    ShardNext(table, OwnerMap(map_.nodes, map_.ring, hashOf), PlaceOf(map_.nodes, id), r);
    var owner := OwnerOfHash(map_.ring, hashOf(r));
    more := mine;
    if owner.Ok? && owner.value == id {
      more := mine.(keys := mine.keys + [table.keys[r]], rows := mine.rows + [table.rows[r]]);
    }
  }

  /** The load command's filter: the rows that the node with this id owns, in order. */
  method LoadShard(map_: ShardMap, table: Table, hashOf: nat -> nat, id: string) returns (mine: Table)
    requires map_.Valid() && |table.keys| == |table.rows|
    ensures mine == Shard(table, OwnerMap(map_.nodes, map_.ring, hashOf), PlaceOf(map_.nodes, id), |table.keys|)
  {
    hide OwnerPlace, PlaceOf, IsRing, Ascending, OwnerMap;
    mine := table.(keys := [], rows := []);
    for r := 0 to |table.keys|
      invariant mine == Shard(table, OwnerMap(map_.nodes, map_.ring, hashOf), PlaceOf(map_.nodes, id), r)
    {
      hide Shard;
      mine := KeepIfMine(map_, table, hashOf, id, r, mine);
    }
  }

  // ---- the published text -------------------------------------------------

  function Join(ids: seq<string>): (text: string) {
    if ids == [] then "" else if |ids| == 1 then ids[0] else ids[0] + "\n" + Join(ids[1..])
  }

  /** The lines of a text that are not empty. */
  function Lines(text: string, line: string): (lines: seq<string>)
    decreases |text|
  {
    if text == "" then Kept(line) else if text[0] == '\n' then Kept(line) + Lines(text[1..], "")
        else Lines(text[1..], line + [text[0]])
  }

  function Kept(line: string): (lines: seq<string>) {
    if line == "" then [] else [line]
  }

  predicate Clean(id: string) {
    id != "" && '\n' !in id
  }

  lemma {:induction false} LinesAreClean(text: string, line: string)
    requires '\n' !in line
    ensures forall x :: x in Lines(text, line) ==> Clean(x)
    decreases |text|
  {
    if text != "" {
      if text[0] == '\n' {
        LinesAreClean(text[1..], "");
      } else {
        LinesAreClean(text[1..], line + [text[0]]);
      }
    }
  }

  lemma {:induction false} LineReadBack(id: string, rest: string, line: string)
    requires '\n' !in id && (rest == "" || rest[0] == '\n')
    ensures Lines(id + rest, line) == Kept(line + id) + (if rest == "" then [] else Lines(rest[1..], ""))
    decreases |id|
  {
    if id == "" {
      assert id + rest == rest && line + id == line;
    } else {
      assert (id + rest)[0] == id[0] && (id + rest)[1..] == id[1..] + rest;
      LineReadBack(id[1..], rest, line + [id[0]]);
      assert line + [id[0]] + id[1..] == line + id;
    }
  }

  lemma {:induction false} CleanReadBack(ids: seq<string>)
    requires forall i :: 0 <= i < |ids| ==> Clean(ids[i])
    ensures Lines(Join(ids), "") == ids
  {
    if |ids| == 1 {
      LineReadBack(ids[0], "", "");
      assert ids[0] + "" == ids[0] && "" + ids[0] == ids[0];
    } else if |ids| > 1 {
      var rest := "\n" + Join(ids[1..]);
      LineReadBack(ids[0], rest, "");
      assert ids[0] + rest == ids[0] + "\n" + Join(ids[1..]) && rest[1..] == Join(ids[1..]) && "" + ids[0] == ids[0];
      CleanReadBack(ids[1..]);
    }
  }

  /** A published map is read back with the same members exactly when no id is empty or has a line break. */
  lemma {:induction false} PublishedReadBack(ids: seq<string>)
    ensures Members(Lines(Join(ids), "")) == Members(ids) <==> forall i :: 0 <= i < |ids| ==> Clean(ids[i])
  {
    LinesAreClean(Join(ids), "");
    if forall i :: 0 <= i < |ids| ==> Clean(ids[i]) {
      CleanReadBack(ids);
    } else {
      var i :| 0 <= i < |ids| && !Clean(ids[i]);
      assert ids[i] in Members(ids);
    }
  }
}
