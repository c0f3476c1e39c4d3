/** The shard map a leader publishes, read back by any node: it is the ring of the members. */
module ClusterMap {
  import opened Base
  import opened Etcd
  import Election
  import opened ShardRing

  /** A member set is published as its ids in ascending order, one on a line. */
  ghost predicate WritesMembers(c: Election.Cluster) {
    forall nodes: seq<string> :: Ascending(nodes) ==> c.mapOf(Members(nodes)) == Join(nodes)
  }

  lemma {:induction false} SortedIds(ids: set<string>) returns (nodes: seq<string>)
    ensures Ascending(nodes) && Members(nodes) == ids
  {
    if ids == {} {
      nodes := [];
    } else {
      var id :| id in ids;
      var rest := SortedIds(ids - {id});
      nodes := Inserted(rest, id);
    }
  }

  lemma {:induction false} Inserted(ids: seq<string>, id: string) returns (nodes: seq<string>)
    requires Ascending(ids) && id !in ids
    ensures Ascending(nodes) && Members(nodes) == Members(ids) + {id}
  {
    if ids == [] {
      nodes := [id];
    } else if Before(id, ids[0]) {
      nodes := [id] + ids;
      forall i, j | 0 <= i < j < |nodes|
        ensures Before(nodes[i], nodes[j])
      {
        if i == 0 && j > 1 {
          BeforeChains(id, ids[0], ids[j - 1]);
        }
      }
    } else {
      BeforeIsTotal(id, ids[0]);
      var rest := Inserted(ids[1..], id);
      nodes := [ids[0]] + rest;
      assert ids == [ids[0]] + ids[1..];
      forall i, j | 0 <= i < j < |nodes|
        ensures Before(nodes[i], nodes[j])
      {
        if i == 0 {
          assert rest[j - 1] in Members(rest);
        }
      }
    }
  }

  /**
   What a leader has published after an undisturbed tick names exactly the members, if their ids can be written down.
   */
  lemma {:induction false} PublishedIsMembership(c: Election.Cluster, id: string, s: Store, n: Election.Node)
    requires StoreOk(s) && c.KeysApart() && WritesMembers(c)
    requires Election.NodeOk(c, s, id, n) && n.pc == Election.Idle && n.ttl > 0 && !n.retired
    ensures var (s', n') := Election.Alone(c, id, s, Election.BeginTick(n));
            n'.leader ==>
              (Members(Lines(n'.published, "")) == Election.MemberIds(c, s')
               <==> forall x :: x in Election.MemberIds(c, s') ==> Clean(x))
  {
    Election.TickSettles(c, id, s, n);
    hide Election.Alone, Election.MemberIds, Election.Registered, Join, Lines, Clean, Ascending;
    var r := Election.Alone(c, id, s, Election.BeginTick(n));
    var nodes := SortedIds(Election.MemberIds(c, r.0));
    PublishedReadBack(nodes);
  }
}
