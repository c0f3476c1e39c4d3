/**
 Leader election over leases. Nodes interleave at the granularity of single store calls and single
 writes of their own fields; a run is any sequence of such actions and clock advances.
 */
module Election {
  import opened Base
  import opened Etcd

  // ---- keys ---------------------------------------------------------------

  /** Everything before the last slash; empty when there is none. */
  function BaseOf(key: string): (base: string) {
    if '/' !in key then ""
    else if key[|key| - 1] == '/' then key[..|key| - 1]
    else BaseOf(key[..|key| - 1])
  }

  /** Everything after the last slash; the whole key when there is none. */
  function LastSegment(key: string): (segment: string)
    ensures '/' !in segment
  {
    if key == [] || key[|key| - 1] == '/' then "" else LastSegment(key[..|key| - 1]) + [key[|key| - 1]]
  }

  function MembersPrefix(leaderKey: string): (p: string) { BaseOf(leaderKey) + "/members/" }
  function MemberKey(leaderKey: string, id: string): (k: string) { MembersPrefix(leaderKey) + id }
  function ShardMapKey(leaderKey: string): (k: string) { BaseOf(leaderKey) + "/shardmap" }
  function EpochKey(leaderKey: string): (k: string) { BaseOf(leaderKey) + "/epoch" }

  lemma {:induction false} SplitsAtLastSlash(key: string)
    requires '/' in key
    ensures key == BaseOf(key) + "/" + LastSegment(key)
  {
    var front := key[..|key| - 1];
    assert key == front + [key[|key| - 1]];
    if key[|key| - 1] != '/' {
      SplitsAtLastSlash(front);
    }
  }

  /** A key made from the base clashes with the leader key exactly when the leader key's last segment is that name. */
  lemma {:induction false} ClashIsByName(leaderKey: string, name: string)
    requires '/' in leaderKey
    ensures BaseOf(leaderKey) + "/" + name == leaderKey <==> name == LastSegment(leaderKey)
  {
    SplitsAtLastSlash(leaderKey);
    var base := BaseOf(leaderKey) + "/";
    assert leaderKey[|base|..] == LastSegment(leaderKey);
    assert (base + name)[|base|..] == name;
  }

  /** No node id can make its member key the leader key. */
  lemma {:induction false} MemberKeyIsNotLeaderKey(leaderKey: string, id: string)
    ensures MemberKey(leaderKey, id) != leaderKey
  {
    var name := "members/" + id;
    assert MemberKey(leaderKey, id) == BaseOf(leaderKey) + "/" + name;
    assert (BaseOf(leaderKey) + "/" + name)[|BaseOf(leaderKey)|] == '/';
    if '/' in leaderKey {
      ClashIsByName(leaderKey, name);
      assert name[7] == '/';
    }
  }

  // ---- nodes --------------------------------------------------------------

  /** Where a node is: the call it is about to make or the field it is about to write. */
  datatype Pc =
    | Idle
    | Renew
    | DropLease(regrant: bool)
    | DropLeader(regrant: bool)
    | AskLease
    | Register
    | Look
    | Contend
    | Record(won: bool)
    | ListMembers
    | Publish(text: string)
    | Revoke

  /** A node whose revocation got lost is retired: its manager is not started again. */
  datatype Node = Node(
    address: string, ttl: int, lease: LeaseId, leader: bool, published: string, pc: Pc, epochs: multiset<nat>,
    retired: bool)

  /** The leader key and how a member set is written as a shard map. */
  datatype Cluster = Cluster(leaderKey: string, mapOf: set<string> -> string, epochText: nat -> string) {
    /** The leader key is none of the other keys hung off its base. */
    predicate KeysApart() {
      leaderKey != ShardMapKey(leaderKey) && leaderKey != EpochKey(leaderKey)
    }
  }

  function MemberIds(c: Cluster, s: Store): (ids: set<string>) {
    var prefix := MembersPrefix(c.leaderKey);
    set k | k in s.Prefixed(prefix) :: k[|prefix|..]
  }

  function BeginTick(n: Node): (r: Node) {
    n.(pc := if n.lease != 0 then Renew else AskLease)
  }

  function BeginStop(n: Node): (r: Node) {
    n.(pc := if n.lease != 0 then Revoke else Idle)
  }

  /** One store call or one field write of node id. */
  function Proceed(c: Cluster, id: string, s: Store, n: Node): (r: (Store, Node))
    requires n.pc != Idle
  {
    match n.pc
    case Renew => (s.KeepAlive(n.lease), n.(pc := if n.lease in s.Purge().leases then Register else DropLease(true)))
    case DropLease(regrant) => (s, n.(lease := 0, pc := DropLeader(regrant)))
    case DropLeader(regrant) => (s, n.(leader := false, pc := if regrant then AskLease else Idle))
    case AskLease => if n.ttl <= 0 then (s, n.(pc := Idle)) else (s.Grant(n.ttl), n.(lease := s.next, pc := Register))
    case Register =>
      (s.Put(MemberKey(c.leaderKey, id), n.address, n.lease), n.(pc := if s.Usable(n.lease) then Look else Idle))
    case Look =>
      (s.Purge(), n.(pc := match s.Lookup(c.leaderKey) case None => Contend case Some(v) => Record(v == id)))
    case Contend =>
      (s.Create(c.leaderKey, id, n.lease),
       n.(pc := if c.leaderKey in s.Purge().kv then Record(false) else if s.Usable(n.lease) then Record(true)
           else Idle))
    case Record(won) => (s, n.(leader := won, pc := if won then ListMembers else Idle))
    case ListMembers =>
      var text := c.mapOf(MemberIds(c, s));
      (s.Purge(), n.(pc := if text != n.published then Publish(text) else Idle))
    case Publish(text) => (s.Put(ShardMapKey(c.leaderKey), text, 0), n.(published := text, pc := Idle))
    case Revoke => (s.Revoke(n.lease), n.(pc := DropLease(false)))
  }

  /** Calls that may come back with an error and no effect. */
  predicate MayFail(pc: Pc) {
    pc.AskLease? || pc.Register? || pc.Look? || pc.Contend? || pc.ListMembers? || pc.Publish? || pc.Revoke?
  }

  /** An error ends a tick; a stop goes on as if the lease had been revoked. */
  function AfterError(n: Node): (r: Node) {
    if n.pc.Revoke? then n.(pc := DropLease(false), retired := true) else n.(pc := Idle)
  }

  // ---- runs ---------------------------------------------------------------

  datatype World = World(store: Store, nodes: map<string, Node>)

  datatype Action =
    | Tick(id: string)
    | Stop(id: string)
    | Go(id: string)
    | Fail(id: string)
    | CheckEpoch(id: string, version: nat)
    | PutEpoch(id: string, version: nat)
    | Clock(seconds: int)

  predicate Enabled(w: World, a: Action) {
    match a
    case Tick(id) => id in w.nodes && w.nodes[id].pc == Idle && !w.nodes[id].retired
    case Stop(id) => id in w.nodes && w.nodes[id].pc == Idle
    case Go(id) => id in w.nodes && w.nodes[id].pc != Idle
    case Fail(id) => id in w.nodes && MayFail(w.nodes[id].pc)
    case CheckEpoch(id, version) => id in w.nodes && w.nodes[id].leader
    case PutEpoch(id, version) => id in w.nodes && version in w.nodes[id].epochs
    case Clock(seconds) => true
  }

  function Act(c: Cluster, w: World, a: Action): (r: World)
    requires Enabled(w, a)
  {
    match a
    case Tick(id) => w.(nodes := w.nodes[id := BeginTick(w.nodes[id])])
    case Stop(id) => w.(nodes := w.nodes[id := BeginStop(w.nodes[id])])
    case Go(id) => var (s, n) := Proceed(c, id, w.store, w.nodes[id]); World(s, w.nodes[id := n])
    case Fail(id) => w.(nodes := w.nodes[id := AfterError(w.nodes[id])])
    case CheckEpoch(id, version) =>
      w.(nodes := w.nodes[id := w.nodes[id].(epochs := w.nodes[id].epochs + multiset{version})])
    case PutEpoch(id, version) =>
      World(w.store.Put(EpochKey(c.leaderKey), c.epochText(version), 0),
            w.nodes[id := w.nodes[id].(epochs := w.nodes[id].epochs - multiset{version})])
    case Clock(seconds) => w.(store := w.store.Advance(seconds))
  }

  /** The world after a sequence of actions; an action that is not enabled does nothing. */
  function Run(c: Cluster, w: World, actions: seq<Action>): (r: World) {
    if actions == [] then w
    else
      var before := Run(c, w, actions[..|actions| - 1]);
      var a := actions[|actions| - 1];
      if Enabled(before, a) then Act(c, before, a) else before
  }

  /** Nodes that have not started, over a store in which none of them is named as leader. */
  ghost predicate Initial(c: Cluster, w: World) {
    && StoreOk(w.store) && c.KeysApart()
    && (c.leaderKey in w.store.kv ==> w.store.kv[c.leaderKey].value !in w.nodes)
    && forall id :: id in w.nodes ==>
         && w.nodes[id].lease == 0 && !w.nodes[id].leader && w.nodes[id].pc == Idle
         && w.nodes[id].epochs == multiset{} && !w.nodes[id].retired
  }

  /** The node believes it leads and its lease is there. */
  ghost predicate LiveLeader(w: World, id: string) {
    id in w.nodes && w.nodes[id].leader && w.nodes[id].lease in w.store.leases
  }

  // ---- the invariant ------------------------------------------------------

  ghost predicate HoldsKey(c: Cluster, s: Store, id: string, lease: LeaseId) {
    c.leaderKey in s.kv && s.kv[c.leaderKey] == Entry(id, lease)
  }

  ghost predicate NodeOk(c: Cluster, s: Store, id: string, n: Node) {
    && n.lease < s.next
    && (n.leader && n.lease in s.leases ==> HoldsKey(c, s, id, n.lease))
    && (n.pc == Record(true) && n.lease in s.leases ==> HoldsKey(c, s, id, n.lease))
    && (c.leaderKey in s.kv && s.kv[c.leaderKey].value == id ==> s.kv[c.leaderKey].lease == n.lease != 0 || n.retired)
    && (n.pc.DropLease? ==> n.lease !in s.leases || n.retired)
    && (n.retired ==> n.pc == DropLease(false) || n.pc == DropLeader(false) || (n.pc == Idle && n.lease == 0))
    && (n.lease == 0 ==> !n.leader || n.pc.DropLeader?)
    && (n.lease == 0 ==> n.pc.Idle? || n.pc.DropLease? || n.pc.DropLeader? || n.pc.AskLease?)
    && (n.pc.AskLease? || n.pc.DropLeader? ==> n.lease == 0)
  }

  ghost predicate Inv(c: Cluster, w: World) {
    && StoreOk(w.store) && c.KeysApart()
    && (forall id :: id in w.nodes ==> NodeOk(c, w.store, id, w.nodes[id]))
    && (forall i, j :: i in w.nodes && j in w.nodes && i != j && w.nodes[i].lease != 0 ==>
        w.nodes[i].lease != w.nodes[j].lease)
  }

  /** What a step of one node may do to the store, as another node sees it. */
  ghost predicate Gentle(c: Cluster, id: string, s: Store, s': Store) {
    && s.next <= s'.next
    && (forall l :: l in s'.leases ==> l in s.leases || l >= s.next)
    && (|| ((c.leaderKey in s'.kv <==> c.leaderKey in s.kv)
        && (c.leaderKey in s.kv ==> s'.kv[c.leaderKey] == s.kv[c.leaderKey]))
        || (c.leaderKey in s.kv && c.leaderKey !in s'.kv && s.kv[c.leaderKey].lease !in s'.leases)
        || (c.leaderKey !in s.kv && c.leaderKey in s'.kv && s'.kv[c.leaderKey].value == id))
  }

  lemma {:induction false} OthersUnharmed(c: Cluster, id: string, s: Store, s': Store, other: string, n: Node)
    requires StoreOk(s) && NodeOk(c, s, other, n) && Gentle(c, id, s, s') && other != id
    ensures NodeOk(c, s', other, n)
  {
  }

  lemma {:induction false} PutIsGentle(c: Cluster, id: string, s: Store, key: string, value: string, lease: LeaseId)
    requires StoreOk(s) && key != c.leaderKey
    ensures Gentle(c, id, s, s.Put(key, value, lease)) && StoreOk(s.Put(key, value, lease))
  {
    NothingToPurge(s);
  }

  lemma {:induction false} ProceedIsGentle(c: Cluster, id: string, s: Store, n: Node)
    requires StoreOk(s) && c.KeysApart() && NodeOk(c, s, id, n) && n.pc != Idle
    ensures Gentle(c, id, s, Proceed(c, id, s, n).0) && StoreOk(Proceed(c, id, s, n).0)
  {
    NothingToPurge(s);
    OperationsKeepStoreOk(s, n.ttl, n.lease, c.leaderKey, id, 0);
    match n.pc
    case Register =>
      MemberKeyIsNotLeaderKey(c.leaderKey, id);
      PutIsGentle(c, id, s, MemberKey(c.leaderKey, id), n.address, n.lease);
    case Publish(text) =>
      PutIsGentle(c, id, s, ShardMapKey(c.leaderKey), text, 0);
    case _ =>
  }

  lemma {:induction false} ProceedKeepsNode(c: Cluster, id: string, s: Store, n: Node)
    requires StoreOk(s) && c.KeysApart() && NodeOk(c, s, id, n) && n.pc != Idle
    ensures NodeOk(c, Proceed(c, id, s, n).0, id, Proceed(c, id, s, n).1)
    ensures var n' := Proceed(c, id, s, n).1; n'.lease == 0 || n'.lease == n.lease || n'.lease == s.next
  {
    NothingToPurge(s);
    if n.pc.Register? {
      MemberKeyIsNotLeaderKey(c.leaderKey, id);
    }
  }

  lemma {:induction false} StepKeepsInv(c: Cluster, w: World, id: string, s': Store, n': Node)
    requires Inv(c, w) && id in w.nodes && StoreOk(s') && Gentle(c, id, w.store, s')
    requires NodeOk(c, s', id, n') && (n'.lease == 0 || n'.lease == w.nodes[id].lease || n'.lease == w.store.next)
    ensures Inv(c, World(s', w.nodes[id := n']))
  {
    forall other | other in w.nodes && other != id
      ensures NodeOk(c, s', other, w.nodes[other]) && w.nodes[other].lease < w.store.next
    {
      OthersUnharmed(c, id, w.store, s', other, w.nodes[other]);
    }
    hide NodeOk, StoreOk, Gentle;
  }

  lemma {:induction false} ClockKeepsInv(c: Cluster, w: World, seconds: int)
    requires Inv(c, w)
    ensures Inv(c, w.(store := w.store.Advance(seconds)))
  {
    OperationsKeepStoreOk(w.store, 1, 0, "", "", seconds);
    forall id | id in w.nodes
      ensures NodeOk(c, w.store.Advance(seconds), id, w.nodes[id])
    {
      ClockKeepsNode(c, w.store, id, w.nodes[id], seconds);
    }
    hide NodeOk, StoreOk;
  }

  lemma {:induction false} ClockKeepsNode(c: Cluster, s: Store, id: string, n: Node, seconds: int)
    requires StoreOk(s) && NodeOk(c, s, id, n)
    ensures NodeOk(c, s.Advance(seconds), id, n)
  {
  }

  lemma {:induction false} ActKeepsInv(c: Cluster, w: World, a: Action)
    requires Inv(c, w) && Enabled(w, a)
    ensures Inv(c, Act(c, w, a))
  {
    match a
    case Go(id) =>
      ProceedIsGentle(c, id, w.store, w.nodes[id]);
      ProceedKeepsNode(c, id, w.store, w.nodes[id]);
      hide NodeOk, Gentle, StoreOk, Proceed;
      StepKeepsInv(c, w, id, Proceed(c, id, w.store, w.nodes[id]).0, Proceed(c, id, w.store, w.nodes[id]).1);
    case Clock(seconds) =>
      ClockKeepsInv(c, w, seconds);
    case PutEpoch(id, version) =>
      PutIsGentle(c, id, w.store, EpochKey(c.leaderKey), c.epochText(version), 0);
      NothingToPurge(w.store);
      StepKeepsInv(c, w, id, Act(c, w, a).store, Act(c, w, a).nodes[id]);
    case _ =>
      StepKeepsInv(c, w, a.id, w.store, Act(c, w, a).nodes[a.id]);
  }

  lemma {:induction false} RunKeepsInv(c: Cluster, w: World, actions: seq<Action>)
    requires Inv(c, w)
    ensures Inv(c, Run(c, w, actions)) && Run(c, w, actions).nodes.Keys == w.nodes.Keys
  {
    if actions != [] {
      RunKeepsInv(c, w, actions[..|actions| - 1]);
      var before := Run(c, w, actions[..|actions| - 1]);
      var a := actions[|actions| - 1];
      if Enabled(before, a) {
        ActKeepsInv(c, before, a);
      }
      hide Inv;
    }
  }

  /**
   In every run, at most one node with a live lease believes it leads, and the leader key names it under that lease.
   */
  lemma {:induction false} OneLiveLeader(c: Cluster, w: World, actions: seq<Action>)
    requires Initial(c, w)
    ensures forall id :: LiveLeader(Run(c, w, actions), id) ==>
              HoldsKey(c, Run(c, w, actions).store, id, Run(c, w, actions).nodes[id].lease)
    ensures forall i, j :: LiveLeader(Run(c, w, actions), i) && LiveLeader(Run(c, w, actions), j) ==> i == j
  {
    RunKeepsInv(c, w, actions);
  }

  // ---- one node left alone ------------------------------------------------

  function Rank(pc: Pc): (k: nat) {
    match pc
    case Renew => 11
    case Revoke => 11
    case DropLease(_) => 10
    case DropLeader(_) => 9
    case AskLease => 8
    case Register => 7
    case Look => 6
    case Contend => 5
    case Record(_) => 4
    case ListMembers => 3
    case Publish(_) => 2
    case Idle => 0
  }

  /** The node runs to the end of its step with nobody in between. */
  function Alone(c: Cluster, id: string, s: Store, n: Node): (r: (Store, Node))
    ensures r.1.pc == Idle
    decreases Rank(n.pc)
  {
    if n.pc == Idle then (s, n) else var r := Proceed(c, id, s, n); Alone(c, id, r.0, r.1)
  }

  lemma {:induction false} AloneStep(c: Cluster, id: string, s: Store, n: Node, s': Store, n': Node)
    requires n.pc != Idle && Proceed(c, id, s, n) == (s', n')
    ensures Alone(c, id, s, n) == Alone(c, id, s', n')
  {
  }

  lemma {:induction false} AloneDone(c: Cluster, id: string, s: Store, n: Node)
    requires n.pc == Idle
    ensures Alone(c, id, s, n) == (s, n)
  {
  }

  ghost predicate Registered(c: Cluster, s: Store, id: string, n: Node) {
    && n.lease in s.leases
    && MemberKey(c.leaderKey, id) in s.kv && s.kv[MemberKey(c.leaderKey, id)] == Entry(n.address, n.lease)
  }

  ghost predicate SameLeaderKey(c: Cluster, s: Store, s': Store) {
    && (c.leaderKey in s'.kv <==> c.leaderKey in s.kv)
    && (c.leaderKey in s.kv ==> s'.kv[c.leaderKey] == s.kv[c.leaderKey])
  }

  predicate Free(c: Cluster, s: Store, id: string) {
    c.leaderKey !in s.kv || s.kv[c.leaderKey].value == id
  }

  lemma {:induction false} ShardMapIsNoMember(leaderKey: string)
    ensures !(MembersPrefix(leaderKey) <= ShardMapKey(leaderKey))
  {
    var b := |BaseOf(leaderKey)| + 1;
    assert MembersPrefix(leaderKey)[b] == 'm' && ShardMapKey(leaderKey)[b] == 's';
  }

  /** From the moment leadership is recorded: the map written last is the map of the members. */
  lemma {:induction false} PublishesMembership(c: Cluster, id: string, s: Store, n: Node)
    requires StoreOk(s) && c.KeysApart() && n.pc == Record(true) && Registered(c, s, id, n)
    ensures var (s', n') := Alone(c, id, s, n);
            && n' == n.(leader := true, pc := Idle, published := c.mapOf(MemberIds(c, s')))
            && StoreOk(s') && Registered(c, s', id, n') && SameLeaderKey(c, s, s')
            && s' == (if n'.published == n.published then s
                      else s.(kv := s.kv[ShardMapKey(c.leaderKey) := Entry(n'.published, 0)]))
  {
    NothingToPurge(s);
    var n1 := Proceed(c, id, s, n).1;
    assert n1 == n.(leader := true, pc := ListMembers);
    var text := c.mapOf(MemberIds(c, s));
    var n2 := Proceed(c, id, s, n1).1;
    assert Proceed(c, id, s, n1).0 == s;
    ShardMapIsNoMember(c.leaderKey);
    if text != n.published {
      var s' := s.Put(ShardMapKey(c.leaderKey), text, 0);
      NothingToPurge(s');
      assert s'.Prefixed(MembersPrefix(c.leaderKey)) == s.Prefixed(MembersPrefix(c.leaderKey));
      assert MemberIds(c, s') == MemberIds(c, s);
      assert Alone(c, id, s, n2) == (s', n2.(published := text, pc := Idle));
    } else {
      assert Alone(c, id, s, n2) == (s, n2);
    }
    assert Alone(c, id, s, n1) == Alone(c, id, s, n2);
  }

  lemma {:induction false} ContendsForKey(c: Cluster, id: string, s: Store, n: Node)
    requires StoreOk(s) && c.KeysApart() && n.pc == Look && NodeOk(c, s, id, n) && Registered(c, s, id, n)
    ensures var (s', n') := Alone(c, id, s, n);
            && StoreOk(s') && Registered(c, s', id, n') && n'.lease == n.lease
            && (n'.leader <==> Free(c, s, id)) && (n'.leader <==> HoldsKey(c, s', id, n'.lease))
            && (n'.leader ==> n'.published == c.mapOf(MemberIds(c, s')))
            && (!n'.leader ==> SameLeaderKey(c, s, s'))
  {
    NothingToPurge(s);
    var n1 := Proceed(c, id, s, n).1;
    assert Proceed(c, id, s, n).0 == s;
    if c.leaderKey in s.kv {
      if s.kv[c.leaderKey].value == id {
        PublishesMembership(c, id, s, n1);
      } else {
        assert Alone(c, id, s, n1) == (s, n1.(leader := false, pc := Idle));
      }
    } else {
      var s1, n2 := Proceed(c, id, s, n1).0, Proceed(c, id, s, n1).1;
      MemberKeyIsNotLeaderKey(c.leaderKey, id);
      assert s1 == s.(kv := s.kv[c.leaderKey := Entry(id, n.lease)]) && n2 == n.(pc := Record(true));
      PublishesMembership(c, id, s1, n2);
      assert Alone(c, id, s, n1) == Alone(c, id, s1, n2);
    }
    assert Alone(c, id, s, n) == Alone(c, id, s, n1);
  }

  /** What an undisturbed tick achieves: the node is a member, and it leads exactly when the key was free or its own. */
  ghost predicate Settled(c: Cluster, id: string, s: Store, r: (Store, Node)) {
    && StoreOk(r.0) && Registered(c, r.0, id, r.1)
    && (r.1.leader <==> Free(c, s, id)) && (r.1.leader <==> HoldsKey(c, r.0, id, r.1.lease))
    && (r.1.leader ==> r.1.published == c.mapOf(MemberIds(c, r.0)))
    && (!r.1.leader ==> SameLeaderKey(c, s, r.0))
  }

  lemma {:induction false} SettlesFromRegister(c: Cluster, id: string, s: Store, n: Node)
    requires StoreOk(s) && c.KeysApart() && NodeOk(c, s, id, n) && n.pc == Register && n.lease in s.leases
    ensures Settled(c, id, s, Alone(c, id, s, n))
  {
    NothingToPurge(s);
    ProceedIsGentle(c, id, s, n);
    ProceedKeepsNode(c, id, s, n);
    MemberKeyIsNotLeaderKey(c.leaderKey, id);
    var r := Proceed(c, id, s, n);
    ContendsForKey(c, id, r.0, r.1);
    assert Alone(c, id, s, n) == Alone(c, id, r.0, r.1);
  }

  lemma {:induction false} SettlesFromAsk(c: Cluster, id: string, s: Store, n: Node)
    requires StoreOk(s) && c.KeysApart() && NodeOk(c, s, id, n) && n.pc == AskLease && n.ttl > 0
    ensures Settled(c, id, s, Alone(c, id, s, n))
  {
    ProceedIsGentle(c, id, s, n);
    ProceedKeepsNode(c, id, s, n);
    var r := Proceed(c, id, s, n);
    SettlesFromRegister(c, id, r.0, r.1);
    assert Alone(c, id, s, n) == Alone(c, id, r.0, r.1);
    hide Alone, NodeOk, MemberIds;
  }

  /** A lapsed lease is dropped together with leadership before a new one is asked for. */
  lemma {:induction false} SettlesFromDrop(c: Cluster, id: string, s: Store, n: Node)
    requires StoreOk(s) && c.KeysApart() && NodeOk(c, s, id, n) && n.pc == DropLease(true) && n.ttl > 0
    ensures Settled(c, id, s, Alone(c, id, s, n))
  {
    var n1 := n.(lease := 0, pc := DropLeader(true));
    var n2 := n1.(leader := false, pc := AskLease);
    ProceedKeepsNode(c, id, s, n);
    ProceedKeepsNode(c, id, s, n1);
    SettlesFromAsk(c, id, s, n2);
    assert Proceed(c, id, s, n) == (s, n1) && Proceed(c, id, s, n1) == (s, n2);
    assert Alone(c, id, s, n1) == Alone(c, id, s, n2);
    assert Alone(c, id, s, n) == Alone(c, id, s, n1);
  }

  lemma {:induction false} TickSettles(c: Cluster, id: string, s: Store, n: Node)
    requires StoreOk(s) && c.KeysApart() && NodeOk(c, s, id, n) && n.pc == Idle && n.ttl > 0 && !n.retired
    ensures Settled(c, id, s, Alone(c, id, s, BeginTick(n)))
  {
    var n1 := BeginTick(n);
    if n1.pc == AskLease {
      SettlesFromAsk(c, id, s, n1);
    } else {
      NothingToPurge(s);
      ProceedIsGentle(c, id, s, n1);
      ProceedKeepsNode(c, id, s, n1);
      var r := Proceed(c, id, s, n1);
      assert Alone(c, id, s, n1) == Alone(c, id, r.0, r.1);
      assert SameLeaderKey(c, s, r.0);
      if r.1.pc == Register {
        SettlesFromRegister(c, id, r.0, r.1);
      } else {
        SettlesFromDrop(c, id, r.0, r.1);
      }
      hide Alone, NodeOk, MemberIds, Proceed, StoreOk;
    }
  }

  /**
   Once the leader's lease runs out, the next node to tick undisturbed leads. The old leader's own flag stays
   up until it ticks, so two flags can be up, but only one of them with a live lease.
   */
  lemma {:induction false} LeadershipPassesOn(c: Cluster, w: World, i: string, j: string, seconds: int)
    requires Inv(c, w) && LiveLeader(w, i) && w.store.leases[w.nodes[i].lease].expires <= w.store.now + seconds
    requires i != j && j in w.nodes && w.nodes[j].pc == Idle && w.nodes[j].ttl > 0 && !w.nodes[j].retired
    ensures var r := Alone(c, j, w.store.Advance(seconds), BeginTick(w.nodes[j]));
            var w' := World(r.0, w.nodes[j := r.1]);
            LiveLeader(w', j) && w'.nodes[i].leader && !LiveLeader(w', i)
  {
    ClockKeepsInv(c, w, seconds);
    var s := w.store.Advance(seconds);
    TickSettles(c, j, s, w.nodes[j]);
    var r := Alone(c, j, s, BeginTick(w.nodes[j]));
    AloneGrantsFresh(c, j, s, BeginTick(w.nodes[j]), w.nodes[i].lease);
  }

  /** A node alone never brings a lease id back. */
  lemma {:induction false} AloneGrantsFresh(c: Cluster, id: string, s: Store, n: Node, lease: LeaseId)
    requires StoreOk(s) && c.KeysApart() && NodeOk(c, s, id, n) && lease !in s.leases && lease < s.next
    ensures lease !in Alone(c, id, s, n).0.leases
    decreases Rank(n.pc)
  {
    if n.pc != Idle {
      ProceedIsGentle(c, id, s, n);
      ProceedKeepsNode(c, id, s, n);
      var r := Proceed(c, id, s, n);
      hide Proceed, NodeOk, StoreOk, Rank;
      AloneGrantsFresh(c, id, r.0, r.1, lease);
    }
  }

  // ---- why a renewal may only fail when the lease is gone ------------------

  /** The node's renewal came back with an error although the lease is there. */
  function RenewalLost(n: Node): (r: Node) {
    n.(pc := DropLease(true))
  }

  lemma {:induction false} DroppedLeaseRegrants(c: Cluster, s: Store, i: string, n: Node)
    requires n.pc == DropLease(true) && n.ttl > 0
    ensures Alone(c, i, s, n) == Alone(c, i, s.Grant(n.ttl), n.(lease := s.next, leader := false, pc := Register))
  {
    hide Alone;
    var n1 := n.(lease := 0, pc := DropLeader(true));
    var n2 := n.(lease := 0, leader := false, pc := AskLease);
    AloneStep(c, i, s, n, s, n1);
    AloneStep(c, i, s, n1, s, n2);
    AloneStep(c, i, s, n2, s.Grant(n.ttl), n2.(lease := s.next, pc := Register));
  }

  /** A registering node whose id is on the leader key leads, whatever lease the key is tied to. */
  lemma {:induction false} OwnIdLeads(c: Cluster, s: Store, i: string, n: Node, lease: LeaseId)
      returns (s': Store, n': Node)
    requires StoreOk(s) && n.pc == Register && n.lease in s.leases && HoldsKey(c, s, i, lease)
    ensures Alone(c, i, s, n) == Alone(c, i, s', n') && n' == n.(pc := Record(true))
    ensures StoreOk(s') && Registered(c, s', i, n') && HoldsKey(c, s', i, lease) && s' == s.(kv := s'.kv)
  {
    hide Alone;
    NothingToPurge(s);
    MemberKeyIsNotLeaderKey(c.leaderKey, i);
    var key := MemberKey(c.leaderKey, i);
    hide MemberKey;
    s', n' := s.(kv := s.kv[key := Entry(n.address, n.lease)]), n.(pc := Record(true));
    assert s.Put(key, n.address, n.lease) == s';
    AloneStep(c, i, s, n, s', n.(pc := Look));
    NothingToPurge(s');
    AloneStep(c, i, s', n.(pc := Look), s', n');
  }

  lemma {:induction false} LostRenewalLeads(c: Cluster, s: Store, i: string, n: Node)
    requires StoreOk(s) && c.KeysApart() && n.pc == DropLease(true) && n.ttl > 0 && n.lease in s.leases
    requires HoldsKey(c, s, i, n.lease)
    ensures var r := Alone(c, i, s, n);
            && StoreOk(r.0) && r.1.leader && r.1.lease == s.next && HoldsKey(c, r.0, i, n.lease)
            && r.0 == Store(s.leases[s.next := Lease(n.ttl, s.now + n.ttl)], r.0.kv, s.now, s.next + 1)
  {
    hide Alone;
    DroppedLeaseRegrants(c, s, i, n);
    var s', n' := OwnIdLeads(c, s.Grant(n.ttl), i, n.(lease := s.next, leader := false, pc := Register), n.lease);
    hide StoreOk;
    PublishesMembership(c, i, s', n');
    RecordKeepsLeases(c, i, s', n');
  }

  lemma {:induction false} RecordKeepsLeases(c: Cluster, id: string, s: Store, n: Node)
    requires StoreOk(s) && (n.pc.Record? || n.pc.ListMembers? || n.pc.Publish? || n.pc.Idle?)
    ensures Alone(c, id, s, n).0 == s.(kv := Alone(c, id, s, n).0.kv)
    decreases Rank(n.pc)
  {
    NothingToPurge(s);
    if n.pc != Idle {
      RecordKeepsLeases(c, id, Proceed(c, id, s, n).0, Proceed(c, id, s, n).1);
    }
  }

  lemma {:induction false} NewLeaseOutlivesOld(c: Cluster, s: Store, i: string, lease: LeaseId, younger: LeaseId)
    requires StoreOk(s) && lease in s.leases && younger in s.leases && HoldsKey(c, s, i, lease)
    requires s.leases[lease].expires < s.leases[younger].expires
    ensures var s' := s.Advance(s.leases[lease].expires - s.now);
            && StoreOk(s') && c.leaderKey !in s'.kv && younger in s'.leases && s'.next == s.next
            && forall l :: l in s'.leases ==> l in s.leases
  {
    OperationsKeepStoreOk(s, 1, 0, "", "", s.leases[lease].expires - s.now);
  }

  lemma {:induction false} BystanderOk(c: Cluster, w: World, i: string, j: string, s: Store)
    requires Inv(c, w) && LiveLeader(w, i) && i != j && j in w.nodes && w.nodes[j].pc == Idle
    requires c.leaderKey !in s.kv && w.store.next < s.next && forall l :: l in s.leases ==>
               l in w.store.leases || l == w.store.next
    ensures NodeOk(c, s, j, w.nodes[j])
  {
    assert NodeOk(c, w.store, i, w.nodes[i]) && NodeOk(c, w.store, j, w.nodes[j]);
  }

  /** Two live leaders: renewal errors that leave the lease in place would break OneLiveLeader. */
  lemma {:induction false} LostRenewalSplits(c: Cluster, w: World, i: string, j: string)
    requires Inv(c, w) && LiveLeader(w, i) && w.nodes[i].ttl > 0
    requires i != j && j in w.nodes && w.nodes[j].pc == Idle && w.nodes[j].ttl > 0 && !w.nodes[j].retired
    requires w.store.leases[w.nodes[i].lease].expires < w.store.now + w.nodes[i].ttl
    ensures var r := Alone(c, i, w.store, RenewalLost(w.nodes[i]));
            var s := r.0.Advance(w.store.leases[w.nodes[i].lease].expires - w.store.now);
            var r' := Alone(c, j, s, BeginTick(w.nodes[j]));
            var w' := World(r'.0, w.nodes[i := r.1][j := r'.1]);
            LiveLeader(w', i) && LiveLeader(w', j)
  {
    hide Alone, Store.Advance, Proceed, MemberIds, MemberKey, SameLeaderKey;
    var n, lease := w.nodes[j], w.nodes[i].lease;
    assert NodeOk(c, w.store, i, w.nodes[i]) && n.lease < w.store.next;
    hide NodeOk, Inv, StoreOk;
    LostRenewalLeads(c, w.store, i, RenewalLost(w.nodes[i]));
    var r := Alone(c, i, w.store, RenewalLost(w.nodes[i]));
    NewLeaseOutlivesOld(c, r.0, i, lease, r.1.lease);
    var s := r.0.Advance(w.store.leases[lease].expires - w.store.now);
    BystanderOk(c, w, i, j, s);
    TickSettles(c, j, s, n);
    AloneKeepsLease(c, j, s, BeginTick(n), r.1.lease);
  }

  /**
   A manager started again after its revocation got lost goes on exactly like one whose renewal got lost, so it splits
   the leadership in the same way; that is why a retired node must not tick.
   */
  lemma {:induction false} RestartIsLostRenewal(c: Cluster, s: Store, i: string, n: Node)
    requires n.ttl > 0
    ensures Alone(c, i, s, BeginTick(n.(lease := 0, leader := false))) == Alone(c, i, s, RenewalLost(n))
  {
    hide Alone;
    DroppedLeaseRegrants(c, s, i, RenewalLost(n));
    var n' := n.(lease := 0, leader := false, pc := AskLease);
    AloneStep(c, i, s, n', s.Grant(n.ttl), n'.(lease := s.next, pc := Register));
  }

  lemma {:induction false} AloneKeepsLease(c: Cluster, id: string, s: Store, n: Node, lease: LeaseId)
    requires StoreOk(s) && c.KeysApart() && NodeOk(c, s, id, n) && lease in s.leases && n.pc != Revoke
    ensures lease in Alone(c, id, s, n).0.leases
    decreases Rank(n.pc)
  {
    NothingToPurge(s);
    if n.pc != Idle {
      ProceedIsGentle(c, id, s, n);
      ProceedKeepsNode(c, id, s, n);
      var r := Proceed(c, id, s, n);
      assert lease in r.0.leases && r.1.pc != Revoke;
      hide Proceed, NodeOk, StoreOk;
      AloneKeepsLease(c, id, r.0, r.1, lease);
    }
  }

  // ---- the manager --------------------------------------------------------

  class ClusterManager {
    const cluster: Cluster
    const id: string
    const address: string
    const ttl: int
    const etcd: FakeEtcd
    var lease: LeaseId
    var published: string
    var leader: bool

    function State(): (n: Node)
      reads this
    {
      Node(address, ttl, lease, leader, published, Idle, multiset{}, false)
    }

    constructor (cluster: Cluster, id: string, address: string, ttl: int, etcd: FakeEtcd)
      ensures this.cluster == cluster && this.id == id && this.etcd == etcd
      ensures State() == Node(address, ttl, 0, false, "", Idle, multiset{}, false)
    {
      this.cluster, this.id, this.address, this.ttl, this.etcd := cluster, id, address, ttl, etcd;
      lease, published, leader := 0, "", false;
    }

    /** Where the node stands at a call inside a tick. */
    function At(pc: Pc): (n: Node)
      reads this
    {
      State().(pc := pc)
    }

    method EnsureLease() returns (ok: bool)
      modifies this`lease, this`leader, etcd
      ensures published == old(published)
      ensures Alone(cluster, id, etcd.Model(), if ok then At(Register) else State())
              == Alone(cluster, id, old(etcd.Model()), BeginTick(old(State())))
    {
      hide Alone;
      ghost var s0, n0 := etcd.Model(), BeginTick(State());
      if lease != 0 {
        var kept := etcd.LeaseKeepAlive(lease);
        if kept.Ok? {
          AloneStep(cluster, id, s0, n0, etcd.Model(), At(Register));
          return true;
        }
        AloneStep(cluster, id, s0, n0, etcd.Model(), At(DropLease(true)));
        lease := 0;
        AloneStep(cluster, id, etcd.Model(), n0.(pc := DropLease(true)), etcd.Model(), At(DropLeader(true)));
        leader := false;
        AloneStep(cluster, id, etcd.Model(), n0.(lease := 0, pc := DropLeader(true)), etcd.Model(), At(AskLease));
      }
      ghost var s1 := etcd.Model();
      ghost var n1 := At(AskLease);
      assert Alone(cluster, id, s1, n1) == Alone(cluster, id, s0, n0);
      var granted := etcd.LeaseGrant(ttl);
      ok := granted.Ok?;
      if granted.Ok? {
        lease := granted.value;
      }
      AloneStep(cluster, id, s1, n1, etcd.Model(), if ok then At(Register) else State());
    }

    /** The ids under the members prefix. */
    method ListIds() returns (ids: set<string>)
      modifies etcd
      ensures etcd.Model() == old(etcd.Model()).Purge() && ids == MemberIds(cluster, old(etcd.Model()))
    {
      var prefix := MembersPrefix(cluster.leaderKey);
      var found := etcd.GetPrefix(prefix);
      ids := set k | k in found :: k[|prefix|..];
    }

    method PublishMap()
      modifies this`published, etcd
      ensures lease == old(lease) && leader == old(leader)
      ensures (etcd.Model(), State()) == Alone(cluster, id, old(etcd.Model()), old(At(ListMembers)))
    {
      hide MemberIds, Alone;
      ghost var s0, n0 := etcd.Model(), At(ListMembers);
      var ids := ListIds();
      var text := cluster.mapOf(ids);
      if text != published {
        AloneStep(cluster, id, s0, n0, etcd.Model(), At(Publish(text)));
        ghost var s1, n1 := etcd.Model(), At(Publish(text));
        var _ := etcd.Put(ShardMapKey(cluster.leaderKey), text, 0);
        published := text;
        AloneStep(cluster, id, s1, n1, etcd.Model(), State());
      } else {
        AloneStep(cluster, id, s0, n0, etcd.Model(), State());
      }
      AloneDone(cluster, id, etcd.Model(), State());
    }

    /** From the look at the leader key to the end of the tick. */
    method ContendForLeadership()
      modifies this`published, this`leader, etcd
      ensures (etcd.Model(), State()) == Alone(cluster, id, old(etcd.Model()), old(At(Look)))
    {
      hide MemberIds, Alone;
      ghost var s0, n0 := etcd.Model(), At(Look);
      var holder := etcd.Get(cluster.leaderKey);
      var won: bool;
      if holder.None? {
        AloneStep(cluster, id, s0, n0, etcd.Model(), At(Contend));
        ghost var s1, n1 := etcd.Model(), At(Contend);
        var created := etcd.CreateIfAbsent(cluster.leaderKey, id, lease);
        if created.Err? {
          AloneStep(cluster, id, s1, n1, etcd.Model(), State());
          AloneDone(cluster, id, etcd.Model(), State());
          return;
        }
        won := created.value;
        AloneStep(cluster, id, s1, n1, etcd.Model(), At(Record(won)));
      } else {
        won := holder.value == id;
        AloneStep(cluster, id, s0, n0, etcd.Model(), At(Record(won)));
      }
      ghost var n2 := At(Record(won));
      leader := won;
      if leader {
        AloneStep(cluster, id, etcd.Model(), n2, etcd.Model(), At(ListMembers));
        PublishMap();
      } else {
        AloneStep(cluster, id, etcd.Model(), n2, etcd.Model(), State());
        AloneDone(cluster, id, etcd.Model(), State());
      }
    }

    /** The tick the code runs is the step system's tick with nobody in between. */
    method Tick()
      modifies this, etcd
      ensures (etcd.Model(), State()) == Alone(cluster, id, old(etcd.Model()), BeginTick(old(State())))
    {
      var ok := EnsureLease();
      if !ok {
        return;
      }
      ghost var s1, n1 := etcd.Model(), At(Register);
      var registered := etcd.Put(MemberKey(cluster.leaderKey, id), address, lease);
      if registered.Err? {
        AloneStep(cluster, id, s1, n1, etcd.Model(), State());
        return;
      }
      AloneStep(cluster, id, s1, n1, etcd.Model(), At(Look));
      ContendForLeadership();
    }

    method Stop()
      modifies this`lease, this`leader, etcd
      ensures (etcd.Model(), State()) == Alone(cluster, id, old(etcd.Model()), BeginStop(old(State())))
    {
      if lease != 0 {
        ghost var s0, n0 := etcd.Model(), At(Revoke);
        etcd.LeaseRevoke(lease);
        AloneStep(cluster, id, s0, n0, etcd.Model(), At(DropLease(false)));
        lease := 0;
        AloneStep(cluster, id, etcd.Model(), n0.(pc := DropLease(false)), etcd.Model(), At(DropLeader(false)));
        leader := false;
        AloneStep(cluster, id, etcd.Model(), n0.(lease := 0, pc := DropLeader(false)), etcd.Model(), State());
      }
    }
  }
}
