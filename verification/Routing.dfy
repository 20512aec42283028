/** What the name server answers, as a function of its database, and the theorems about
    whole announcement logs. Router.Ospf is proved to compute exactly these functions. */
module Routing {
  import opened Wrappers
  import opened Graphs
  import opened LsaDatabase
  import N = NearestServer

  // The server calc_sp finds for a client.
  function ServerFor(db: Db, c: Name): Option<Name> {
    N.Choose(db.Graph(), db.Servers(), c)
  }

  // The routing table for these clients, in order.
  function Routes(db: Db, clits: seq<Name>): (r: seq<(Name, Option<Name>)>)
    ensures |r| == |clits|
  {
    seq(|clits|, i requires 0 <= i < |clits| => (clits[i], ServerFor(db, clits[i])))
  }

  // Start-up passes its assertion: every client has a server.
  ghost predicate Ready(db: Db) {
    forall c | c in db.clits :: ServerFor(db, c).Some?
  }

  // The first entry for a client; None stands for the missing entry that is dereferenced.
  function Lookup(table: seq<(Name, Option<Name>)>, c: Name): Option<Name> {
    if table == [] then None
    else if table[0].0 == c then table[0].1
    else Lookup(table[1..], c)
  }

  function Route(db: Db, c: Name): Option<Name> {
    if c in db.clits then ServerFor(db, c) else None
  }

  lemma {:induction false} LookupFindsRoute(db: Db, clits: seq<Name>, c: Name)
    ensures Lookup(Routes(db, clits), c) == if c in clits then ServerFor(db, c) else None
  {
    if clits != [] {
      assert Routes(db, clits)[1..] == Routes(db, clits[1..]);
      assert clits == [clits[0]] + clits[1..];
      LookupFindsRoute(db, clits[1..], c);
    }
  }

  // ------------------------------------------------------------------ theorems over logs

  // Every client of every log gets a nearest server of the newest-announcement graph,
  // and start-up fails iff some client cannot reach any server.
  lemma RouteIsNearest(servers: seq<Name>, log: seq<Lsa>, c: Name)
    requires IsClient(servers, log, c)
    ensures var db := Boot(servers, log);
            match Route(db, c)
            case Some(s) => Nearest(db.Graph(), Elements(servers), c, s)
            case None => forall s | s in servers :: !Reaches(db.Graph(), c, s)
  {
    var db := Boot(servers, log);
    BootedNode(servers, log, c);
    N.ChooseIsNearest(db.Graph(), db.Servers(), c);
    assert db.Servers() - {c} == Elements(servers);
    if Route(db, c).None? {
      forall s | s in servers
        ensures !Reaches(db.Graph(), c, s)
      {
        assert s in db.Servers() - {c};
      }
    }
  }

  // Among equally near servers the positions in the newest lists decide.
  lemma RouteEndsLeastWalk(servers: seq<Name>, log: seq<Lsa>, c: Name)
    requires IsClient(servers, log, c)
    ensures N.EndsLeastWalk(Boot(servers, log).Graph(), Elements(servers), c, Route(Boot(servers, log), c))
  {
    BootedNode(servers, log, c);
    N.ChooseEndsLeastWalk(Boot(servers, log).Graph(), Elements(servers), c);
  }

  // A client that announces servers itself gets the first one in its newest list.
  lemma RouteIsFirstListed(servers: seq<Name>, log: seq<Lsa>, c: Name, i: nat)
    requires IsClient(servers, log, c)
    requires var list := RecOf(Boot(servers, log), c).neighbors;
             i < |list| && list[i] in servers && forall j | 0 <= j < i :: list[j] !in servers
    ensures Route(Boot(servers, log), c) == Some(RecOf(Boot(servers, log), c).neighbors[i])
  {
    BootedNode(servers, log, c);
    N.FirstListedServer(Boot(servers, log).Graph(), Elements(servers), c, i);
  }

  lemma ReadyIffAllClientsReach(servers: seq<Name>, log: seq<Lsa>)
    ensures var db := Boot(servers, log);
            Ready(db) <==> forall c | IsClient(servers, log, c) :: exists s | s in servers :: Reaches(db.Graph(), c, s)
  {
    var db := Boot(servers, log);
    forall c
      ensures c in db.clits <==> IsClient(servers, log, c)
      ensures c in db.clits ==> (ServerFor(db, c).Some? <==> exists s | s in servers :: Reaches(db.Graph(), c, s))
    {
      BootedNode(servers, log, c);
      if c in db.clits {
        RouteIsNearest(servers, log, c);
      }
    }
  }

  // As long as each sender's latest lines agree, reordering the log, or repeating lines
  // of it, changes no answer: not the distance, not the server, not whether start-up
  // succeeds.
  lemma RouteIgnoresOrder(servers: seq<Name>, log: seq<Lsa>, log': seq<Lsa>, c: Name)
    requires Settled(log) && SameLines(log, log')
    ensures Route(Boot(servers, log), c) == Route(Boot(servers, log'), c)
  {
    var db, db' := Boot(servers, log), Boot(servers, log');
    forall n
      ensures Out(db.Graph(), n) == Out(db'.Graph(), n)
    {
      BootIgnoresOrder(servers, log, log', n);
    }
    BootIgnoresOrder(servers, log, log', c);
    BootedNode(servers, log, c);
    BootedNode(servers, log', c);
    N.VisitDependsOnOut(db.Graph(), db'.Graph(), db.Servers(), [], [c], {c});
  }

  lemma ReadyIgnoresOrder(servers: seq<Name>, log: seq<Lsa>, log': seq<Lsa>)
    requires Settled(log) && SameLines(log, log')
    ensures Ready(Boot(servers, log)) <==> Ready(Boot(servers, log'))
  {
    forall c
      ensures Route(Boot(servers, log), c) == Route(Boot(servers, log'), c)
      ensures c in Boot(servers, log).clits <==> c in Boot(servers, log').clits
    {
      RouteIgnoresOrder(servers, log, log', c);
      BootIgnoresOrder(servers, log, log', c);
    }
  }

  // A log that is not settled: with two different lists under one sequence number the
  // first line wins, and swapping the lines changes the answer.
  lemma OrderMattersWhenInconsistent(a: Lsa, b: Lsa)
    requires a == Lsa("c", 0, ["s"]) && b == Lsa("c", 0, [])
    ensures !Settled([a, b]) && SameLines([a, b], [b, a])
    ensures Route(Boot(["s"], [a, b]), "c") != None && Route(Boot(["s"], [b, a]), "c") == None
  {
    TwoLineLog([a, b], a, b);
    TwoLineLog([b, a], b, a);
    DedupOne("s");
    EqualNumbers(a, b);
    hide *;
    var g, g' := Boot(["s"], [a, b]).Graph(), Boot(["s"], [b, a]).Graph();
    EdgeReaches(g, "c", "s");
    DeadEnd(g', "c", "s");
    OneServerRoute([a, b]);
    OneServerRoute([b, a]);
  }

  // Two lists under one number do no harm once a later line settles the matter.
  lemma InconsistentButSettled(log: seq<Lsa>)
    requires log == [Lsa("c", 0, ["s"]), Lsa("c", 0, []), Lsa("c", 1, ["s"])]
    ensures !Consistent(log) && Settled(log)
  {
    assert log[0] in log && log[1] in log && log[2] in log;
    forall l | IsLatest(log, l)
      ensures l == log[2]
    {
    }
  }

  lemma EdgeReaches(g: Graph, x: Name, y: Name)
    requires y in Out(g, x)
    ensures Reaches(g, x, y)
  {
    EdgeIsWithin(g, x, y);
  }

  lemma DeadEnd(g: Graph, x: Name, y: Name)
    requires Out(g, x) == [] && x != y
    ensures !Reaches(g, x, y)
  {
    hide Within;
    forall k: nat
      ensures !Within(g, x, y, k)
    {
      if Within(g, x, y, k) {
        ClosedSetHoldsReachable(g, x, y, k, {x});
      }
    }
  }

  lemma EqualNumbers(a: Lsa, b: Lsa)
    requires a.sender == b.sender && a.seqNum == b.seqNum >= 0
    ensures SameLines([a, b], [b, a])
    ensures Settled([a, b]) ==> Dedup(a.neighbors) == Dedup(b.neighbors)
  {
    hide Dedup;
    assert IsLatest([a, b], a) && IsLatest([a, b], b);
  }

  lemma DedupOne(n: Name)
    ensures Dedup([]) == [] && Dedup([n]) == [n]
  {
  }

  lemma OneServerRoute(log: seq<Lsa>)
    requires IsClient(["s"], log, "c")
    ensures Route(Boot(["s"], log), "c").Some? <==> Reaches(Boot(["s"], log).Graph(), "c", "s")
  {
    hide Route, Boot, Reaches, Nearest;
    var db := Boot(["s"], log);
    RouteIsNearest(["s"], log, "c");
    if Route(db, "c").Some? {
      NearestIsReached(db.Graph(), Elements(["s"]), "c", Route(db, "c").value);
    }
  }

  lemma NearestIsReached(g: Graph, goals: set<Name>, c: Name, s: Name)
    requires Nearest(g, goals, c, s)
    ensures s in goals && Reaches(g, c, s)
  {
  }

  lemma TwoLineLog(log: seq<Lsa>, a: Lsa, b: Lsa)
    requires log == [a, b] && a.sender == b.sender && a.seqNum == b.seqNum && a.seqNum >= 0
    ensures Out(Boot(["s"], log).Graph(), a.sender) == Dedup(a.neighbors)
    ensures !IsRouter(a.sender) && a.sender != "s" ==> IsClient(["s"], log, a.sender)
  {
    var r := RecOf(Boot(["s"], log), a.sender);
    BootedNode(["s"], log, a.sender);
    assert a in log;
    assert FirstWithSeq(log, 0, a.sender, Rec(a.seqNum, Dedup(a.neighbors)));
    NewestIsUnique(log, a.sender, r, Rec(a.seqNum, Dedup(a.neighbors)));
  }

  // ------------------------------------------------------------------ round robin

  // The counter is a uint32_t.
  function NextCount(count: nat): nat {
    (count + 1) % 0x1_0000_0000
  }

  function Slot(size: nat, count: nat): (r: nat)
    requires 0 < size
    ensures r < size
  {
    count % size
  }

  function Turn(order: seq<Name>, count: nat): Option<Name> {
    if order == [] then None else Some(order[Slot(|order|, count)])
  }

  // The slot behind i, cyclically.
  function After(size: nat, i: nat): (r: nat)
    requires i < size
    ensures r < size
  {
    if i + 1 == size then 0 else i + 1
  }

  // In round-robin mode each server occurs once in the node table, and consecutive
  // queries get cyclically consecutive servers, except that the counter's wrap-around
  // breaks the cycle unless the number of servers divides its range.
  lemma RoundRobinAdvances(servers: seq<Name>, count: nat)
    requires servers != [] && count < 0x1_0000_0000
    ensures var order := AddServers(EMPTY, servers).order;
            && (forall n :: n in order <==> n in servers)
            && Distinct(order)
            && order != []
            && Turn(order, count) == Some(order[Slot(|order|, count)])
            && (Turn(order, NextCount(count)) == Some(order[After(|order|, Slot(|order|, count))]) <==>
                  count < 0xFFFF_FFFF || Slot(|order|, 0x1_0000_0000) == 0)
  {
    hide NextCount, Slot, Dedup, AddServers;
    ServersInOrder(servers);
    DedupKeepsFirsts(servers);
    var order := Dedup(servers);
    assert servers[0] in order;
    CounterAdvances(|order|, count);
    DistinctAt(order, Slot(|order|, NextCount(count)), After(|order|, Slot(|order|, count)));
  }

  // The counter after n more queries, and the servers that they were answered with.
  function AfterQueries(count: nat, n: nat): nat {
    if n == 0 then count else NextCount(AfterQueries(count, n - 1))
  }

  function Answers(order: seq<Name>, count: nat, n: nat): (r: seq<Name>)
    requires order != []
    ensures |r| == n
  {
    if n == 0 then [] else Answers(order, count, n - 1) + [Turn(order, AfterQueries(count, n - 1)).value]
  }

  // Fairness: as long as the counter does not wrap, any k rounds of consecutive queries
  // send exactly k of them to each server.
  lemma RoundRobinIsFair(servers: seq<Name>, count: nat, k: nat, s: Name)
    requires s in servers && count + k * |AddServers(EMPTY, servers).order| <= 0x1_0000_0000
    ensures var order := AddServers(EMPTY, servers).order;
            order != [] && multiset(Answers(order, count, k * |order|))[s] == k
  {
    hide Answers, Dedup, AddServers, Total;
    ServersInOrder(servers);
    DedupKeepsFirsts(servers);
    TotalIsProduct(k, |Dedup(servers)|);
    RoundsAreFair(Dedup(servers), count, k, s);
  }

  ghost predicate Distinct(order: seq<Name>) {
    forall i, j | 0 <= i < j < |order| :: order[i] != order[j]
  }

  function Total(k: nat, size: nat): nat {
    if k == 0 then 0 else Total(k - 1, size) + size
  }

  lemma {:induction false} TotalIsProduct(k: nat, size: nat)
    ensures Total(k, size) == k * size
  {
    if k > 0 {
      TotalIsProduct(k - 1, size);
    }
  }

  lemma {:induction false} RoundsAreFair(order: seq<Name>, count: nat, k: nat, s: Name)
    requires order != [] && s in order && Distinct(order)
    requires count + Total(k, |order|) <= 0x1_0000_0000
    ensures multiset(Answers(order, count, Total(k, |order|)))[s] == k
  {
    hide Distinct, Answers;
    if k == 0 {
      NoAnswers(order, count, s);
    } else {
      var n := Total(k - 1, |order|);
      RoundsAreFair(order, count, k - 1, s);
      AnswersSplit(order, count, n, |order|);
      OneRound(order, count + n, s);
      JoinedCount(Answers(order, count, n), Answers(order, count + n, |order|), s);
    }
  }

  lemma NoAnswers(order: seq<Name>, count: nat, s: Name)
    requires order != []
    ensures multiset(Answers(order, count, 0))[s] == 0
  {
  }

  lemma JoinedCount(a: seq<Name>, b: seq<Name>, s: Name)
    ensures multiset(a + b)[s] == multiset(a)[s] + multiset(b)[s]
  {
  }

  lemma CountsOn(count: nat)
    requires count + 1 < 0x1_0000_0000
    ensures NextCount(count) == count + 1
  {
  }

  lemma {:induction false} CountsUp(count: nat, n: nat)
    requires count + n < 0x1_0000_0000
    ensures AfterQueries(count, n) == count + n
  {
    hide NextCount;
    if n > 0 {
      CountsUp(count, n - 1);
      CountsOn(count + n - 1);
    }
  }

  lemma {:induction false} AnswersSplit(order: seq<Name>, count: nat, n: nat, m: nat)
    requires order != [] && count + n + m <= 0x1_0000_0000
    ensures Answers(order, count, n + m) == Answers(order, count, n) + Answers(order, count + n, m)
  {
    hide AfterQueries, Turn;
    if m > 0 {
      AnswersSplit(order, count, n, m - 1);
      CountsUp(count, n + m - 1);
      CountsUp(count + n, m - 1);
    }
  }

  // The slot n queries on, at most once around.
  function Ahead(size: nat, r: nat, n: nat): nat
    requires r < size && n <= size
  {
    if r + n < size then r + n else r + n - size
  }

  lemma {:induction false} SlotAhead(size: nat, count: nat, n: nat)
    requires 0 < size && n <= size
    ensures Slot(size, count + n) == Ahead(size, Slot(size, count), n)
  {
    hide Slot;
    if n > 0 {
      SlotAhead(size, count, n - 1);
      SlotAfter(size, count + n - 1);
      assert count + n - 1 + 1 == count + n;
    }
  }

  // Slot p is one of the n slots from r on.
  predicate Passed(size: nat, r: nat, n: nat, p: nat) {
    if r + n <= size then r <= p < r + n else r <= p < size || p < r + n - size
  }

  lemma PassedStep(size: nat, r: nat, n: nat, p: nat)
    requires r < size && 0 < n <= size && p < size
    ensures Passed(size, r, n, p) <==> Passed(size, r, n - 1, p) || p == Ahead(size, r, n - 1)
    ensures Passed(size, r, n - 1, p) ==> p != Ahead(size, r, n - 1)
  {
  }

  lemma AnswersStep(order: seq<Name>, count: nat, n: nat)
    requires order != [] && 0 < n <= |order| && count + n <= 0x1_0000_0000
    ensures Answers(order, count, n)
         == Answers(order, count, n - 1) + [order[Ahead(|order|, Slot(|order|, count), n - 1)]]
  {
    hide Slot, AfterQueries;
    CountsUp(count, n - 1);
    SlotAhead(|order|, count, n - 1);
  }

  lemma {:induction false} PassedOnce(order: seq<Name>, count: nat, n: nat, p: nat)
    requires Distinct(order) && p < |order| && n <= |order| && count + n <= 0x1_0000_0000
    ensures multiset(Answers(order, count, n))[order[p]] == if Passed(|order|, Slot(|order|, count), n, p) then 1 else 0
  {
    hide Slot, AfterQueries, Turn, Distinct, Ahead, Answers, Passed;
    if n == 0 {
      NonePassed(order, count, p);
    } else {
      PassedOnce(order, count, n - 1, p);
      var r := Slot(|order|, count);
      AnswersStep(order, count, n);
      PassedStep(|order|, r, n, p);
      AheadBound(|order|, r, n - 1);
      var q := Ahead(|order|, r, n - 1);
      DistinctAt(order, q, p);
      JoinedCount(Answers(order, count, n - 1), [order[q]], order[p]);
    }
  }

  lemma NonePassed(order: seq<Name>, count: nat, p: nat)
    requires p < |order|
    ensures multiset(Answers(order, count, 0))[order[p]] == 0
    ensures !Passed(|order|, Slot(|order|, count), 0, p)
  {
  }

  lemma AheadBound(size: nat, r: nat, n: nat)
    requires r < size && n <= size
    ensures Ahead(size, r, n) < size
  {
  }

  lemma OneRound(order: seq<Name>, count: nat, s: Name)
    requires order != [] && s in order && Distinct(order) && count + |order| <= 0x1_0000_0000
    ensures multiset(Answers(order, count, |order|))[s] == 1
  {
    hide Slot, Answers, Distinct;
    var p :| 0 <= p < |order| && order[p] == s;
    PassedOnce(order, count, |order|, p);
  }

  // With three servers the wrap-around sends two queries in a row to the same one.
  lemma TwiceAtWrap(servers: seq<Name>)
    requires servers == ["a", "b", "c"]
    ensures var order := AddServers(EMPTY, servers).order;
            Turn(order, 0xFFFF_FFFF) == Some("a") && Turn(order, NextCount(0xFFFF_FFFF)) == Some("a")
  {
    hide AddServers, Dedup;
    ServersInOrder(servers);
    ThreeServers(servers);
    assert Slot(3, 0xFFFF_FFFF) == 0 && Slot(3, 0) == 0;
    assert NextCount(0xFFFF_FFFF) == 0;
  }

  lemma ThreeServers(servers: seq<Name>)
    requires servers == ["a", "b", "c"]
    ensures Dedup(servers) == servers
  {
    var p := servers[..2];
    assert p == ["a", "b"] && p[..1] == ["a"] && servers[..|servers| - 1] == p;
    DedupOne("a");
    assert Dedup(p) == ["a"] + ["b"];
  }

  lemma DistinctAt(order: seq<Name>, a: nat, b: nat)
    requires a < |order| && b < |order| && Distinct(order)
    ensures order[a] == order[b] <==> a == b
  {
    if a < b {
      assert order[a] != order[b];
    } else if b < a {
      assert order[b] != order[a];
    }
  }

  lemma CounterAdvances(size: nat, count: nat)
    requires 0 < size && count < 0x1_0000_0000
    ensures Slot(size, NextCount(count)) == After(size, Slot(size, count)) <==>
            count < 0xFFFF_FFFF || Slot(size, 0x1_0000_0000) == 0
  {
    hide Slot;
    SlotAfter(size, count);
    if count < 0xFFFF_FFFF {
      assert NextCount(count) == count + 1;
    } else {
      assert NextCount(count) == 0 && count + 1 == 0x1_0000_0000;
      SlotOfMultiple(size, 0, 0);
    }
  }

  lemma SlotAfter(size: nat, count: nat)
    requires 0 < size
    ensures Slot(size, count + 1) == After(size, Slot(size, count))
  {
    var q, r := count / size, count % size;
    assert count == q * size + r;
    if r + 1 < size {
      SlotOfMultiple(size, q, r + 1);
    } else {
      assert count + 1 == (q + 1) * size + 0;
      SlotOfMultiple(size, q + 1, 0);
    }
  }

  lemma SlotOfMultiple(size: nat, q: nat, r: nat)
    requires r < size
    ensures q * size + r >= 0 && Slot(size, q * size + r) == r
  {
    UniqueRemainder(q * size + r, size, q, r);
  }

  lemma UniqueRemainder(n: nat, size: nat, q: nat, r: nat)
    requires 0 < size && r < size && n == q * size + r
    ensures n % size == r
  {
    var q', r' := n / size, n % size;
    assert (q - q') * size == r' - r;
    if q - q' >= 1 {
      MultipleIsLarge(q - q', size);
    } else if q' - q >= 1 {
      MultipleIsLarge(q' - q, size);
    }
  }

  lemma MultipleIsLarge(k: int, size: nat)
    requires k >= 1
    ensures k * size >= size
  {
  }
}
