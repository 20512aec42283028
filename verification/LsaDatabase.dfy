/** What the name server knows after reading its server list and a prefix of the
    announcement log: a pure account of parse_servs, parse_LSA, add_new_node and
    add_new_neighbor. The heap version in Router is proved equal to it. */
module LsaDatabase {
  import opened Graphs

  // One announcement, already split into its three fields.
  datatype Lsa = Lsa(sender: Name, seqNum: int, neighbors: seq<Name>)

  // What is stored for one node; -1 means nothing has been accepted from it.
  datatype Rec = Rec(seqNum: int, neighbors: seq<Name>)

  const UNHEARD := Rec(-1, [])

  // order lists the node table, servs and clits the two lists of pointers into it.
  datatype Db = Db(order: seq<Name>, recs: map<Name, Rec>, servs: seq<Name>, clits: seq<Name>) {
    function Graph(): Graph {
      map n | n in recs :: recs[n].neighbors
    }

    function Servers(): set<Name> {
      Elements(servs)
    }
  }

  const EMPTY := Db([], map[], [], [])

  function RecOf(db: Db, n: Name): Rec {
    if n in db.recs then db.recs[n] else UNHEARD
  }

  predicate IsRouter(n: Name) {
    "router" <= n
  }

  function AddNode(db: Db, n: Name): Db {
    if n in db.recs then db else db.(order := db.order + [n], recs := db.recs[n := UNHEARD])
  }

  function AddServer(db: Db, n: Name): Db {
    var d := AddNode(db, n);
    d.(servs := d.servs + [n])
  }

  function AddServers(db: Db, names: seq<Name>): Db {
    if names == [] then db
    else AddServer(AddServers(db, names[..|names| - 1]), names[|names| - 1])
  }

  function AddNeighbor(db: Db, owner: Name, n: Name): (r: Db)
    requires owner in db.recs
    ensures owner in r.recs
  {
    var d := AddNode(db, n);
    var rec := d.recs[owner];
    if n in rec.neighbors then d
    else d.(recs := d.recs[owner := rec.(neighbors := rec.neighbors + [n])])
  }

  function AddNeighbors(db: Db, owner: Name, names: seq<Name>): (r: Db)
    requires owner in db.recs
    ensures owner in r.recs
  {
    if names == [] then db
    else AddNeighbor(AddNeighbors(db, owner, names[..|names| - 1]), owner, names[|names| - 1])
  }

  function AddClient(db: Db, n: Name): Db {
    if n in db.servs || IsRouter(n) || n in db.clits then db
    else db.(clits := db.clits + [n])
  }

  function ClearRec(db: Db, n: Name, seqNum: int): (r: Db)
    ensures n in r.recs
  {
    db.(recs := db.recs[n := Rec(seqNum, [])])
  }

  function AddLsa(db: Db, l: Lsa): Db {
    var d := AddClient(AddNode(db, l.sender), l.sender);
    if RecOf(d, l.sender).seqNum >= l.seqNum then d
    else AddNeighbors(ClearRec(d, l.sender, l.seqNum), l.sender, l.neighbors)
  }

  function AddLog(db: Db, log: seq<Lsa>): Db {
    if log == [] then db
    else AddLsa(AddLog(db, log[..|log| - 1]), log[|log| - 1])
  }

  function Boot(servers: seq<Name>, log: seq<Lsa>): Db {
    AddLog(AddServers(EMPTY, servers), log)
  }

  // ------------------------------------------------------------------ de-duplication

  function Dedup(names: seq<Name>): seq<Name> {
    if names == [] then []
    else
      var d := Dedup(names[..|names| - 1]);
      if names[|names| - 1] in d then d else d + [names[|names| - 1]]
  }

  // x occurs before any y.
  ghost predicate Precedes(names: seq<Name>, x: Name, y: Name) {
    exists a | 0 <= a < |names| :: names[a] == x && y !in names[..a + 1]
  }

  lemma PrecedesGrows(names: seq<Name>, last: Name, x: Name, y: Name)
    requires Precedes(names, x, y)
    ensures Precedes(names + [last], x, y)
  {
    var a :| 0 <= a < |names| && names[a] == x && y !in names[..a + 1];
    assert (names + [last])[a] == x && (names + [last])[..a + 1] == names[..a + 1];
  }

  lemma PrecedesNew(names: seq<Name>, last: Name, x: Name)
    requires x in names && last !in names
    ensures Precedes(names + [last], x, last)
  {
    var a :| 0 <= a < |names| && names[a] == x;
    assert (names + [last])[a] == x && (names + [last])[..a + 1] == names[..a + 1];
  }

  // Dedup keeps exactly the names, once each, in the order of their first occurrence.
  lemma {:induction false} DedupKeepsFirsts(names: seq<Name>)
    ensures forall n :: n in Dedup(names) <==> n in names
    ensures forall i, j | 0 <= i < j < |Dedup(names)| :: Dedup(names)[i] != Dedup(names)[j]
    ensures forall i, j | 0 <= i < j < |Dedup(names)| :: Precedes(names, Dedup(names)[i], Dedup(names)[j])
  {
    hide Precedes;
    if names != [] {
      var p, last := names[..|names| - 1], names[|names| - 1];
      DedupKeepsFirsts(p);
      assert names == p + [last];
      var d := Dedup(p);
      forall i, j | 0 <= i < j < |Dedup(names)|
        ensures Precedes(names, Dedup(names)[i], Dedup(names)[j])
      {
        if j < |d| {
          PrecedesGrows(p, last, d[i], d[j]);
        } else {
          assert d[i] in d;
          PrecedesNew(p, last, d[i]);
        }
      }
    }
  }

  // ------------------------------------------------------------------ newest wins

  // r is the record that the announcements of n in the log call for: the largest
  // non-negative sequence number heard from n, with the de-duplicated neighbours of
  // the first line that carried it.
  ghost predicate IsNewest(log: seq<Lsa>, n: Name, r: Rec) {
    if r.seqNum < 0 then
      r == UNHEARD && forall l | l in log && l.sender == n :: l.seqNum < 0
    else
      exists i | 0 <= i < |log| :: FirstWithSeq(log, i, n, r)
  }

  ghost predicate FirstWithSeq(log: seq<Lsa>, i: nat, n: Name, r: Rec)
    requires i < |log|
  {
    && log[i].sender == n
    && log[i].seqNum == r.seqNum
    && r.neighbors == Dedup(log[i].neighbors)
    && (forall j | 0 <= j < |log| && log[j].sender == n :: log[j].seqNum <= r.seqNum)
    && (forall j | 0 <= j < i && log[j].sender == n :: log[j].seqNum < r.seqNum)
  }

  lemma {:induction false} AddNeighborsFills(db: Db, owner: Name, names: seq<Name>, n: Name)
    requires owner in db.recs && db.recs[owner].neighbors == []
    ensures var d := AddNeighbors(db, owner, names);
            && d.servs == db.servs && d.clits == db.clits
            && RecOf(d, n) == if n == owner then Rec(db.recs[owner].seqNum, Dedup(names)) else RecOf(db, n)
  {
    if names != [] {
      AddNeighborsFills(db, owner, names[..|names| - 1], n);
      AddNeighborsFills(db, owner, names[..|names| - 1], owner);
    }
  }

  lemma AddLsaRec(db: Db, l: Lsa, n: Name)
    ensures RecOf(AddLsa(db, l), n) ==
            if n == l.sender && RecOf(db, n).seqNum < l.seqNum then Rec(l.seqNum, Dedup(l.neighbors))
            else RecOf(db, n)
    ensures AddLsa(db, l).servs == db.servs
    ensures AddLsa(db, l).clits == AddClient(db, l.sender).clits
  {
    var d := AddClient(AddNode(db, l.sender), l.sender);
    if RecOf(d, l.sender).seqNum < l.seqNum {
      AddNeighborsFills(ClearRec(d, l.sender, l.seqNum), l.sender, l.neighbors, n);
    }
  }

  // After any log prefix every node carries its newest announcement.
  lemma {:induction false} NewestWins(db: Db, log: seq<Lsa>, n: Name)
    requires RecOf(db, n) == UNHEARD
    ensures IsNewest(log, n, RecOf(AddLog(db, log), n))
  {
    if log != [] {
      var p, l := log[..|log| - 1], log[|log| - 1];
      assert log == p + [l];
      NewestWins(db, p, n);
      AddLsaRec(AddLog(db, p), l, n);
      NewestStep(p, l, n, RecOf(AddLog(db, p), n));
    }
  }

  // One more line replaces the record iff its number is larger.
  lemma NewestStep(p: seq<Lsa>, l: Lsa, n: Name, r: Rec)
    requires IsNewest(p, n, r)
    ensures IsNewest(p + [l], n, if n == l.sender && r.seqNum < l.seqNum then Rec(l.seqNum, Dedup(l.neighbors)) else r)
  {
    var log := p + [l];
    if n == l.sender && r.seqNum < l.seqNum {
      if l.seqNum >= 0 {
        forall j | 0 <= j < |p| && p[j].sender == n
          ensures p[j].seqNum < l.seqNum
        {
          assert p[j] in p;
        }
        assert FirstWithSeq(log, |p|, n, Rec(l.seqNum, Dedup(l.neighbors)));
      }
    } else if r.seqNum >= 0 {
      var i :| 0 <= i < |p| && FirstWithSeq(p, i, n, r);
      assert FirstWithSeq(log, i, n, r);
    }
  }

  // IsNewest leaves no freedom: it determines the record.
  lemma {:induction false} NewestIsUnique(log: seq<Lsa>, n: Name, r: Rec, r': Rec)
    requires IsNewest(log, n, r) && IsNewest(log, n, r')
    ensures r == r'
  {
    if r.seqNum >= 0 {
      var i :| 0 <= i < |log| && FirstWithSeq(log, i, n, r);
      assert log[i] in log;
      var j :| 0 <= j < |log| && FirstWithSeq(log, j, n, r');
      assert i == j;
    }
  }

  // ------------------------------------------------------------------ servers and clients

  lemma {:induction false} ServersOnly(names: seq<Name>, n: Name)
    ensures var d := AddServers(EMPTY, names);
            && d.servs == names && d.clits == []
            && RecOf(d, n) == UNHEARD
  {
    if names != [] {
      ServersOnly(names[..|names| - 1], n);
      assert names == names[..|names| - 1] + [names[|names| - 1]];
    }
  }

  // The node table after the server list: each server once.
  lemma {:induction false} ServersInOrder(names: seq<Name>)
    ensures AddServers(EMPTY, names).order == Dedup(names)
    ensures forall n :: n in AddServers(EMPTY, names).recs <==> n in AddServers(EMPTY, names).order
  {
    if names != [] {
      ServersInOrder(names[..|names| - 1]);
    }
  }

  ghost predicate IsClient(servers: seq<Name>, log: seq<Lsa>, n: Name) {
    && n !in servers
    && !IsRouter(n)
    && exists l :: l in log && l.sender == n
  }

  lemma {:induction false} LogClients(db: Db, log: seq<Lsa>, n: Name)
    requires db.clits == []
    ensures AddLog(db, log).servs == db.servs
    ensures n in AddLog(db, log).clits <==> IsClient(db.servs, log, n)
  {
    if log != [] {
      var p, l := log[..|log| - 1], log[|log| - 1];
      assert log == p + [l];
      LogClients(db, p, n);
      AddLsaRec(AddLog(db, p), l, n);
      assert n == l.sender ==> l in log;
    }
  }

  // The client list holds exactly the announcing nodes that are neither servers nor
  // routers, whether or not their announcements were accepted.
  lemma BootedNode(servers: seq<Name>, log: seq<Lsa>, n: Name)
    ensures var db := Boot(servers, log);
            && db.servs == servers
            && (n in db.clits <==> IsClient(servers, log, n))
            && IsNewest(log, n, RecOf(db, n))
            && Out(db.Graph(), n) == RecOf(db, n).neighbors
  {
    ServersOnly(servers, n);
    LogClients(AddServers(EMPTY, servers), log, n);
    NewestWins(AddServers(EMPTY, servers), log, n);
  }

  // The senders of a log that may become clients, line by line.
  function Announcers(servers: seq<Name>, log: seq<Lsa>): seq<Name> {
    if log == [] then []
    else
      var p, n := Announcers(servers, log[..|log| - 1]), log[|log| - 1].sender;
      if n in servers || IsRouter(n) then p else p + [n]
  }

  // Each of them is a client once, in the order of their first lines.
  lemma ClientsInOrder(servers: seq<Name>, log: seq<Lsa>)
    ensures Boot(servers, log).clits == Dedup(Announcers(servers, log))
  {
    ServersOnly(servers, "");
    LogClientsInOrder(AddServers(EMPTY, servers), servers, log);
  }

  lemma {:induction false} LogClientsInOrder(db: Db, servers: seq<Name>, log: seq<Lsa>)
    requires db.clits == [] && db.servs == servers
    ensures AddLog(db, log).clits == Dedup(Announcers(servers, log))
  {
    if log != [] {
      var p, l := log[..|log| - 1], log[|log| - 1];
      LogClientsInOrder(db, servers, p);
      LogClients(db, p, l.sender);
      AddLsaRec(AddLog(db, p), l, l.sender);
      DedupSnoc(Announcers(servers, p), l.sender);
    }
  }

  lemma DedupSnoc(names: seq<Name>, n: Name)
    ensures Dedup(names + [n]) == if n in Dedup(names) then Dedup(names) else Dedup(names) + [n]
  {
    assert (names + [n])[..|names|] == names;
  }

  // Spelled out: every announcing node is a client unless it is a server or its name
  // begins with the six letters.
  lemma ClientsIff(servers: seq<Name>, log: seq<Lsa>, n: Name)
    ensures n in Boot(servers, log).clits <==>
              && n !in servers && (exists l :: l in log && l.sender == n)
              && !(|n| >= 6 && n[0] == 'r' && n[1] == 'o' && n[2] == 'u' && n[3] == 't' && n[4] == 'e' && n[5] == 'r')
  {
    BootedNode(servers, log, n);
    assert IsRouter(n) <==> |n| >= 6 && n[..6] == "router";
  }

  // ------------------------------------------------------------------ order and replay

  // Equal sender and sequence number mean an equal neighbour list.
  ghost predicate Consistent(log: seq<Lsa>) {
    forall l, l' | l in log && l' in log && l.sender == l'.sender && l.seqNum == l'.seqNum ::
      l.neighbors == l'.neighbors
  }

  // One log is a reordering of the other, with lines repeated at will.
  ghost predicate SameLines(log: seq<Lsa>, log': seq<Lsa>) {
    forall l :: l in log <==> l in log'
  }

  // A line that no other line of its sender outranks, and that is accepted at all.
  ghost predicate IsLatest(log: seq<Lsa>, l: Lsa) {
    l in log && l.seqNum >= 0 && forall m | m in log && m.sender == l.sender :: m.seqNum <= l.seqNum
  }

  // All latest lines of one sender call for the same record.
  ghost predicate Settled(log: seq<Lsa>) {
    forall l, l' | IsLatest(log, l) && IsLatest(log, l') && l.sender == l'.sender ::
      Dedup(l.neighbors) == Dedup(l'.neighbors)
  }

  lemma ConsistentIsSettled(log: seq<Lsa>)
    requires Consistent(log)
    ensures Settled(log)
  {
    forall l, l' | IsLatest(log, l) && IsLatest(log, l') && l.sender == l'.sender
      ensures Dedup(l.neighbors) == Dedup(l'.neighbors)
    {
      assert l.seqNum == l'.seqNum;
    }
  }

  // A node's record is that of any of its latest lines, if there is only one choice.
  lemma NewestIsLatest(log: seq<Lsa>, n: Name, r: Rec) returns (l: Lsa)
    requires IsNewest(log, n, r) && r.seqNum >= 0
    ensures IsLatest(log, l) && l.sender == n && r == Rec(l.seqNum, Dedup(l.neighbors))
  {
    var i :| 0 <= i < |log| && FirstWithSeq(log, i, n, r);
    l := log[i];
    forall m | m in log && m.sender == l.sender
      ensures m.seqNum <= l.seqNum
    {
      var j :| 0 <= j < |log| && log[j] == m;
    }
  }

  lemma NewestIgnoresOrder(log: seq<Lsa>, log': seq<Lsa>, n: Name, r: Rec, r': Rec)
    requires Settled(log) && SameLines(log, log')
    requires IsNewest(log, n, r) && IsNewest(log', n, r')
    ensures r == r'
  {
    hide FirstWithSeq, Dedup;
    HeardIff(log, n, r);
    HeardIff(log', n, r');
    if r.seqNum >= 0 {
      var l := NewestIsLatest(log, n, r);
      var l' := NewestIsLatest(log', n, r');
      assert IsLatest(log, l');
    }
  }

  lemma HeardIff(log: seq<Lsa>, n: Name, r: Rec)
    requires IsNewest(log, n, r)
    ensures r.seqNum >= 0 <==> exists l :: l in log && l.sender == n && l.seqNum >= 0
  {
    if r.seqNum >= 0 {
      var l := NewestIsLatest(log, n, r);
    }
  }

  lemma BootIgnoresOrder(servers: seq<Name>, log: seq<Lsa>, log': seq<Lsa>, n: Name)
    requires Settled(log) && SameLines(log, log')
    ensures Out(Boot(servers, log).Graph(), n) == Out(Boot(servers, log').Graph(), n)
    ensures n in Boot(servers, log).clits <==> n in Boot(servers, log').clits
  {
    BootedNode(servers, log, n);
    BootedNode(servers, log', n);
    NewestIgnoresOrder(log, log', n, RecOf(Boot(servers, log), n), RecOf(Boot(servers, log'), n));
  }

  // A latest line at the front of the log decides its sender's list.
  lemma FrontDecides(servers: seq<Name>, log: seq<Lsa>, l: Lsa)
    requires IsLatest(log, l)
    ensures SameLines(log, [l] + log)
    ensures Out(Boot(servers, [l] + log).Graph(), l.sender) == Dedup(l.neighbors)
  {
    var moved := [l] + log;
    var r := Rec(l.seqNum, Dedup(l.neighbors));
    BootedNode(servers, moved, l.sender);
    assert FirstWithSeq(moved, 0, l.sender, r) by {
      forall j | 0 <= j < |moved| && moved[j].sender == l.sender
        ensures moved[j].seqNum <= l.seqNum
      {
        assert moved[j] == l || moved[j] in log;
      }
    }
    NewestIsUnique(moved, l.sender, RecOf(Boot(servers, moved), l.sender), r);
  }

  // Every log with the same lines gives every node the same neighbour list.
  ghost predicate OrderIrrelevant(servers: seq<Name>, log: seq<Lsa>) {
    forall log', n | SameLines(log, log') ::
      Out(Boot(servers, log').Graph(), n) == Out(Boot(servers, log).Graph(), n)
  }

  // The order of the lines, and repeating them, makes no difference exactly if each
  // sender's latest lines agree.
  lemma OrderIrrelevantIff(servers: seq<Name>, log: seq<Lsa>)
    ensures OrderIrrelevant(servers, log) <==> Settled(log)
  {
    hide Boot, Dedup, IsLatest, SameLines;
    if Settled(log) {
      forall log', n | SameLines(log, log')
        ensures Out(Boot(servers, log').Graph(), n) == Out(Boot(servers, log).Graph(), n)
      {
        BootIgnoresOrder(servers, log, log', n);
      }
    }
    if OrderIrrelevant(servers, log) {
      forall l, l' | IsLatest(log, l) && IsLatest(log, l') && l.sender == l'.sender
        ensures Dedup(l.neighbors) == Dedup(l'.neighbors)
      {
        FrontDecides(servers, log, l);
        FrontDecides(servers, log, l');
        var here := Out(Boot(servers, log).Graph(), l.sender);
        assert Out(Boot(servers, [l] + log).Graph(), l.sender) == here;
        assert Out(Boot(servers, [l'] + log).Graph(), l.sender) == here;
      }
    }
  }
}
