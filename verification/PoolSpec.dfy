/** The proxy's connection pool as a value: the three slot tables with their cross
    indices and reference counts, the throughput table, the high-water marks, the live
    counters and the two descriptor sets, with every operation as a function and the
    four event handlers on top. Pool.Pool is proved to take exactly these steps. */
module PoolSpec {
  import opened Wrappers
  import opened Slots
  import Rates

  const FD_SETSIZE: nat := 1024

  datatype Client = Client(fd: int, addr: int, numServ: int)
  datatype Server = Server(fd: int, addr: int, numClit: int)
  datatype Conn = Conn(clit: int, serv: int, tPut: int, curBitrate: int)
  datatype Thru = Thru(clitAddr: int, servAddr: int, avgPut: int)

  datatype State = State(
    clients: seq<Option<Client>>, servers: seq<Option<Server>>,
    conns: seq<Option<Conn>>, thrus: seq<Option<Thru>>,
    maxClit: int, maxServ: int, maxConn: int, maxThru: int,
    curClient: int, curServer: int, curConn: int,
    readSet: set<int>, writeSet: set<int>, maxfd: int,
    alpha: real, rates: seq<int>)

  function Max(a: int, b: int): int {
    if a > b then a else b
  }

  function Empty<T>(): seq<Option<T>> {
    seq(FD_SETSIZE, _ => None)
  }

  function Init(listen: int, alpha: real): State {
    State(Empty(), Empty(), Empty(), Empty(), -1, -1, -1, -1, 0, 0, 0, {listen}, {}, listen, alpha, [])
  }

  ghost predicate Sized(s: State) {
    && |s.clients| == |s.servers| == |s.conns| == |s.thrus| == FD_SETSIZE
    && -1 <= s.maxClit < FD_SETSIZE && -1 <= s.maxServ < FD_SETSIZE
    && -1 <= s.maxConn < FD_SETSIZE && -1 <= s.maxThru < FD_SETSIZE
  }

  predicate LiveClient(s: State, i: int) {
    0 <= i < |s.clients| && s.clients[i].Some?
  }

  predicate LiveServer(s: State, i: int) {
    0 <= i < |s.servers| && s.servers[i].Some?
  }

  predicate LiveConn(s: State, k: int) {
    0 <= k < |s.conns| && s.conns[k].Some?
  }

  // Every live connection names a live client and a live server.
  ghost predicate RefsLive(s: State) {
    forall k | LiveConn(s, k) :: LiveClient(s, s.conns[k].value.clit) && LiveServer(s, s.conns[k].value.serv)
  }

  // ------------------------------------------------------------------ table operations

  // A refused client leaves no trace.
  function AddClient(s: State, fd: int, addr: int): State {
    var i := FirstFree(s.clients);
    if i == |s.clients| then s
    else s.(clients := s.clients[i := Some(Client(fd, addr, 0))],
            curClient := s.curClient + 1,
            readSet := s.readSet + {fd}, writeSet := s.writeSet + {fd},
            maxfd := Max(s.maxfd, fd), maxClit := Max(s.maxClit, i))
  }

  function AddServer(s: State, fd: int, addr: int): State {
    var i := FirstFree(s.servers);
    if i == |s.servers| then s
    else s.(servers := s.servers[i := Some(Server(fd, addr, 0))],
            curServer := s.curServer + 1,
            readSet := s.readSet + {fd}, writeSet := s.writeSet + {fd},
            maxfd := Max(s.maxfd, fd), maxServ := Max(s.maxServ, i))
  }

  // The counts are raised before a slot is looked for.
  function RaiseCounts(s: State, clit: int, serv: int): State
    requires LiveClient(s, clit) && LiveServer(s, serv)
  {
    var c, v := s.clients[clit].value, s.servers[serv].value;
    s.(clients := s.clients[clit := Some(c.(numServ := c.numServ + 1))],
       servers := s.servers[serv := Some(v.(numClit := v.numClit + 1))])
  }

  function AddConn(s: State, clit: int, serv: int): State
    requires LiveClient(s, clit) && LiveServer(s, serv)
  {
    var i, t := FirstFree(s.conns), RaiseCounts(s, clit, serv);
    if i == |s.conns| then t
    else t.(conns := s.conns[i := Some(Conn(clit, serv, 0, 10))],
            curConn := s.curConn + 1, maxConn := Max(s.maxConn, i))
  }

  function CloseServ(s: State, i: int): State
    requires LiveServer(s, i)
  {
    var fd := s.servers[i].value.fd;
    s.(servers := s.servers[i := None], curServer := s.curServer - 1,
       readSet := s.readSet - {fd}, writeSet := s.writeSet - {fd})
  }

  function CloseClit(s: State, i: int): State
    requires LiveClient(s, i)
  {
    var fd := s.clients[i].value.fd;
    s.(clients := s.clients[i := None], curClient := s.curClient - 1,
       readSet := s.readSet - {fd}, writeSet := s.writeSet - {fd})
  }

  function LowerCounts(s: State, clit: int, serv: int): State
    requires LiveClient(s, clit) && LiveServer(s, serv)
  {
    var c, v := s.clients[clit].value, s.servers[serv].value;
    s.(clients := s.clients[clit := Some(c.(numServ := c.numServ - 1))],
       servers := s.servers[serv := Some(v.(numClit := v.numClit - 1))])
  }

  // Gives up the connection, then whichever of its ends has none left.
  function CloseConn(s: State, k: int): State
    requires LiveConn(s, k)
    requires LiveClient(s, s.conns[k].value.clit) && LiveServer(s, s.conns[k].value.serv)
  {
    var clit, serv := s.conns[k].value.clit, s.conns[k].value.serv;
    var t := LowerCounts(s, clit, serv);
    var u := if t.servers[serv].value.numClit == 0 then CloseServ(t, serv) else t;
    var v := if u.clients[clit].value.numServ == 0 then CloseClit(u, clit) else u;
    v.(conns := v.conns[k := None], curConn := v.curConn - 1)
  }

  function AddThru(s: State, clitAddr: int, servAddr: int): State {
    var i := FirstFree(s.thrus);
    if i == |s.thrus| then s
    else s.(thrus := s.thrus[i := Some(Thru(clitAddr, servAddr, 0))], maxThru := Max(s.maxThru, i))
  }

  // ------------------------------------------------------------------ lookups

  ghost function OnServerFd(s: State, fd: int): Conn -> bool {
    (c: Conn) => LiveServer(s, c.serv) && s.servers[c.serv].value.fd == fd
  }

  ghost function OnClientAndAddr(s: State, fd: int, addr: int): Conn -> bool {
    (c: Conn) => LiveServer(s, c.serv) && LiveClient(s, c.clit)
      && s.clients[c.clit].value.fd == fd && s.servers[c.serv].value.addr == addr
  }

  ghost function OfPair(clitAddr: int, servAddr: int): Thru -> bool {
    (t: Thru) => t.clitAddr == clitAddr && t.servAddr == servAddr
  }

  ghost function ServerGetConn(s: State, fd: int): int
    requires Sized(s)
  {
    Scan(s.conns, s.maxConn, OnServerFd(s, fd))
  }

  ghost function ClientGetConn(s: State, fd: int, addr: int): int
    requires Sized(s)
  {
    Scan(s.conns, s.maxConn, OnClientAndAddr(s, fd, addr))
  }

  ghost function GetThru(s: State, clitAddr: int, servAddr: int): int
    requires Sized(s)
  {
    Scan(s.thrus, s.maxThru, OfPair(clitAddr, servAddr))
  }

  // ------------------------------------------------------------------ the invariant

  ghost predicate Marks(s: State) {
    && HighWater(s.clients, s.maxClit)
    && HighWater(s.servers, s.maxServ)
    && HighWater(s.conns, s.maxConn)
    && HighWater(s.thrus, s.maxThru)
  }

  ghost function OfClient(i: int): Conn -> bool {
    (c: Conn) => c.clit == i
  }

  ghost function OfServer(i: int): Conn -> bool {
    (c: Conn) => c.serv == i
  }

  // Reference counts are the numbers of live connections that name the slot.
  ghost predicate CountsExact(s: State) {
    && (forall i | LiveClient(s, i) :: s.clients[i].value.numServ == Count(s.conns, OfClient(i)))
    && (forall i | LiveServer(s, i) :: s.servers[i].value.numClit == Count(s.conns, OfServer(i)))
  }

  // Between handlers every live server has exactly one connection.
  ghost predicate OneConnPerServer(s: State) {
    forall i | LiveServer(s, i) :: s.servers[i].value.numClit == 1
  }

  ghost predicate Counters(s: State) {
    && s.curClient == Live(s.clients)
    && s.curServer == Live(s.servers)
    && s.curConn == Live(s.conns)
    && s.curServer == s.curConn
  }

  ghost predicate HasFd(s: State, fd: int) {
    || (exists i :: LiveClient(s, i) && s.clients[i].value.fd == fd)
    || (exists i :: LiveServer(s, i) && s.servers[i].value.fd == fd)
  }

  // No descriptor is used twice.
  ghost predicate FdsDistinct(s: State, listen: int) {
    && (forall i, j | LiveClient(s, i) && LiveClient(s, j) && i != j :: s.clients[i].value.fd != s.clients[j].value.fd)
    && (forall i, j | LiveServer(s, i) && LiveServer(s, j) && i != j :: s.servers[i].value.fd != s.servers[j].value.fd)
    && (forall i, j | LiveClient(s, i) && LiveServer(s, j) :: s.clients[i].value.fd != s.servers[j].value.fd)
    && !HasFd(s, listen)
  }

  // select() watches exactly the live descriptors, the listener for reading only, and
  // its range covers them all.
  ghost predicate FdSets(s: State, listen: int) {
    && (forall fd :: fd in s.readSet <==> fd == listen || HasFd(s, fd))
    && (forall fd :: fd in s.writeSet <==> HasFd(s, fd))
    && (forall fd | fd in s.readSet :: fd <= s.maxfd)
  }

  // At most one throughput entry per pair of addresses.
  ghost predicate ThruUnique(s: State) {
    forall i, j | 0 <= i < j < |s.thrus| && s.thrus[i].Some? && s.thrus[j].Some? ::
      var t, u := s.thrus[i].value, s.thrus[j].value; !(t.clitAddr == u.clitAddr && t.servAddr == u.servAddr)
  }

  ghost predicate Inv(s: State, listen: int) {
    && Sized(s) && Marks(s)
    && RefsLive(s) && CountsExact(s) && OneConnPerServer(s)
    && Counters(s)
    && FdsDistinct(s, listen) && FdSets(s, listen)
    && ThruUnique(s)
  }

  lemma {:induction false} EmptyCounts<T>(n: nat, p: T -> bool)
    ensures Count(seq(n, _ => None), p) == 0
  {
    CountIsZero(seq(n, _ => None), p);
  }

  lemma InitInv(listen: int, alpha: real)
    ensures Inv(Init(listen, alpha), listen)
  {
    EmptyCounts<Client>(FD_SETSIZE, Everything());
    EmptyCounts<Server>(FD_SETSIZE, Everything());
    EmptyCounts<Conn>(FD_SETSIZE, Everything());
  }

  // Start-up leaves every table empty, every counter and mark at its start, and the
  // listener alone to be watched.
  lemma InitIsEmpty(listen: int, alpha: real)
    ensures var s := Init(listen, alpha);
            && Sized(s) && (forall i :: !LiveClient(s, i) && !LiveServer(s, i) && !LiveConn(s, i))
            && (forall i | 0 <= i < |s.thrus| :: s.thrus[i].None?)
            && s.maxClit == s.maxServ == s.maxConn == s.maxThru == -1
            && s.readSet == {listen} && s.writeSet == {} && s.maxfd == listen
            && s.alpha == alpha && s.rates == []
  {
  }

  // ------------------------------------------------------------------ accepting a client

  lemma AddClientFds(s: State, listen: int, fd: int, addr: int)
    requires Sized(s) && FdsDistinct(s, listen) && FdSets(s, listen)
    requires !HasFd(s, fd) && fd != listen
    ensures FdsDistinct(AddClient(s, fd, addr), listen) && FdSets(AddClient(s, fd, addr), listen)
  {
    var t, i := AddClient(s, fd, addr), FirstFree(s.clients);
    if i < |s.clients| {
      forall f
        ensures HasFd(t, f) <==> f == fd || HasFd(s, f)
      {
        if HasFd(s, f) {
          if j :| LiveClient(s, j) && s.clients[j].value.fd == f {
            assert LiveClient(t, j) && t.clients[j].value.fd == f;
          } else {
            var j :| LiveServer(s, j) && s.servers[j].value.fd == f;
            assert LiveServer(t, j) && t.servers[j].value.fd == f;
          }
        }
        if f == fd {
          assert LiveClient(t, i) && t.clients[i].value.fd == f;
        }
        if HasFd(t, f) && f != fd {
          if j :| LiveClient(t, j) && t.clients[j].value.fd == f {
            assert LiveClient(s, j) && s.clients[j].value.fd == f;
          } else {
            var j :| LiveServer(t, j) && t.servers[j].value.fd == f;
            assert LiveServer(s, j) && s.servers[j].value.fd == f;
          }
        }
      }
    }
  }

  lemma AddClientInv(s: State, listen: int, fd: int, addr: int)
    requires Inv(s, listen) && !HasFd(s, fd) && fd != listen
    ensures Inv(AddClient(s, fd, addr), listen)
  {
    AddClientFds(s, listen, fd, addr);
    var t, i := AddClient(s, fd, addr), FirstFree(s.clients);
    if i < |s.clients| {
      LiveUpdate(s.clients, i, Some(Client(fd, addr, 0)));
      NobodyNames(s, OfClient(i));
    }
  }

  // No live connection names a slot that is not live.
  lemma NobodyNames(s: State, p: Conn -> bool)
    requires forall k | LiveConn(s, k) :: !p(s.conns[k].value)
    ensures Count(s.conns, p) == 0
  {
    CountIsZero(s.conns, p);
  }

  // ------------------------------------------------------------------ opening a connection

  // A fresh server and its connection: add_server followed by add_conn.
  function OpenConn(s: State, clit: int, fd: int, addr: int): State
    requires LiveClient(s, clit) && FirstFree(s.servers) < |s.servers|
  {
    AddConn(AddServer(s, fd, addr), clit, FirstFree(s.servers))
  }

  // Servers and connections come in equal numbers, so room for a server is room for
  // its connection: add_conn never fails after add_server has succeeded.
  lemma RoomForConn(s: State)
    requires Sized(s) && Counters(s) && FirstFree(s.servers) < |s.servers|
    ensures FirstFree(s.conns) < |s.conns|
  {
    LiveFillsTable(s.servers);
    LiveFillsTable(s.conns);
  }

  lemma OpenConnRefs(s: State, listen: int, clit: int, fd: int, addr: int)
    requires Inv(s, listen) && LiveClient(s, clit) && FirstFree(s.servers) < |s.servers|
    ensures var t := OpenConn(s, clit, fd, addr);
            RefsLive(t) && CountsExact(t) && OneConnPerServer(t)
  {
    RoomForConn(s);
    var t := OpenConn(s, clit, fd, addr);
    var k, serv := FirstFree(s.conns), FirstFree(s.servers);
    var conn := Conn(clit, serv, 0, 10);
    assert t.conns == s.conns[k := Some(conn)];
    forall j | LiveConn(t, j)
      ensures LiveClient(t, t.conns[j].value.clit) && LiveServer(t, t.conns[j].value.serv)
    {
      if j != k {
        assert LiveConn(s, j);
      }
    }
    forall i | LiveClient(t, i)
      ensures t.clients[i].value.numServ == Count(t.conns, OfClient(i))
    {
      assert LiveClient(s, i);
      CountUpdate(s.conns, OfClient(i), k, Some(conn));
    }
    forall i | LiveServer(t, i)
      ensures t.servers[i].value.numClit == Count(t.conns, OfServer(i)) == 1
    {
      CountUpdate(s.conns, OfServer(i), k, Some(conn));
      if i == serv {
        forall j | LiveConn(s, j)
          ensures s.conns[j].value.serv != i
        {
          assert LiveServer(s, s.conns[j].value.serv);
        }
        NobodyNames(s, OfServer(i));
      } else {
        assert LiveServer(s, i);
      }
    }
  }

  lemma OpenConnCounters(s: State, listen: int, clit: int, fd: int, addr: int)
    requires Inv(s, listen) && LiveClient(s, clit) && FirstFree(s.servers) < |s.servers|
    ensures var t := OpenConn(s, clit, fd, addr);
            Sized(t) && Marks(t) && Counters(t) && ThruUnique(t)
  {
    RoomForConn(s);
    var k, serv := FirstFree(s.conns), FirstFree(s.servers);
    var t := OpenConn(s, clit, fd, addr);
    LiveUpdate(s.conns, k, Some(Conn(clit, serv, 0, 10)));
    LiveUpdate(s.clients, clit, t.clients[clit]);
    LiveUpdate(s.servers, serv, t.servers[serv]);
    assert t.servers == s.servers[serv := t.servers[serv]];
  }

  lemma OpenConnFds(s: State, listen: int, clit: int, fd: int, addr: int)
    requires Sized(s) && FdsDistinct(s, listen) && FdSets(s, listen)
    requires LiveClient(s, clit) && FirstFree(s.servers) < |s.servers|
    requires !HasFd(s, fd) && fd != listen
    ensures FdsDistinct(OpenConn(s, clit, fd, addr), listen) && FdSets(OpenConn(s, clit, fd, addr), listen)
  {
    var t, i := OpenConn(s, clit, fd, addr), FirstFree(s.servers);
    assert forall j :: LiveClient(t, j) <==> LiveClient(s, j);
    assert forall j | LiveClient(s, j) :: t.clients[j].value.fd == s.clients[j].value.fd;
    assert forall j :: LiveServer(t, j) <==> j == i || LiveServer(s, j);
    assert forall j | LiveServer(s, j) :: t.servers[j].value.fd == s.servers[j].value.fd;
    assert LiveServer(t, i) && t.servers[i].value.fd == fd;
    FdsAfterAdding(s, t, listen, fd, i);
  }

  // t differs from s, as far as descriptors go, by the new server slot i holding fd.
  lemma FdsAfterAdding(s: State, t: State, listen: int, fd: int, i: int)
    requires FdsDistinct(s, listen) && FdSets(s, listen)
    requires !HasFd(s, fd) && fd != listen
    requires forall j :: LiveClient(t, j) <==> LiveClient(s, j)
    requires forall j | LiveClient(s, j) :: LiveClient(t, j) && t.clients[j].value.fd == s.clients[j].value.fd
    requires !LiveServer(s, i) && forall j :: LiveServer(t, j) <==> j == i || LiveServer(s, j)
    requires forall j | LiveServer(s, j) :: LiveServer(t, j) && t.servers[j].value.fd == s.servers[j].value.fd
    requires LiveServer(t, i) && t.servers[i].value.fd == fd
    requires t.readSet == s.readSet + {fd} && t.writeSet == s.writeSet + {fd} && t.maxfd == Max(s.maxfd, fd)
    ensures FdsDistinct(t, listen) && FdSets(t, listen)
  {
    forall f
      ensures HasFd(t, f) <==> f == fd || HasFd(s, f)
    {
      if HasFd(s, f) {
        if j :| LiveClient(s, j) && s.clients[j].value.fd == f {
          assert LiveClient(t, j) && t.clients[j].value.fd == f;
        } else {
          var j :| LiveServer(s, j) && s.servers[j].value.fd == f;
          assert LiveServer(t, j) && t.servers[j].value.fd == f;
        }
      }
      if HasFd(t, f) && f != fd {
        if j :| LiveClient(t, j) && t.clients[j].value.fd == f {
          assert LiveClient(s, j) && s.clients[j].value.fd == f;
        } else {
          var j :| LiveServer(t, j) && t.servers[j].value.fd == f;
          assert LiveServer(s, j) && s.servers[j].value.fd == f;
        }
      }
    }
    assert forall j | LiveClient(s, j) :: HasFd(s, s.clients[j].value.fd);
    assert forall j | LiveServer(s, j) :: HasFd(s, s.servers[j].value.fd);
  }

  lemma OpenConnInv(s: State, listen: int, clit: int, fd: int, addr: int)
    requires Inv(s, listen) && LiveClient(s, clit) && FirstFree(s.servers) < |s.servers|
    requires !HasFd(s, fd) && fd != listen
    ensures Inv(OpenConn(s, clit, fd, addr), listen)
  {
    OpenConnRefs(s, listen, clit, fd, addr);
    OpenConnCounters(s, listen, clit, fd, addr);
    OpenConnFds(s, listen, clit, fd, addr);
  }

  // ------------------------------------------------------------------ closing a connection

  // The two counts are positive, the server goes away with its only connection, and
  // the client goes away iff this was its last one.
  lemma CloseConnShape(s: State, listen: int, k: int)
    requires Inv(s, listen) && LiveConn(s, k)
    ensures var clit, serv, t := s.conns[k].value.clit, s.conns[k].value.serv, CloseConn(s, k);
            && LiveClient(s, clit) && LiveServer(s, serv)
            && s.clients[clit].value.numServ >= 1 && s.servers[serv].value.numClit == 1
            && t.conns == s.conns[k := None]
            && t.servers == s.servers[serv := None]
            && (var c := s.clients[clit].value;
                t.clients == s.clients[clit := if c.numServ == 1 then None else Some(c.(numServ := c.numServ - 1))])
            && t.thrus == s.thrus
  {
    var clit, serv := s.conns[k].value.clit, s.conns[k].value.serv;
    CountIsZero(s.conns, OfClient(clit));
    assert Accepted(s.conns, OfClient(clit), k);
    var t := CloseConn(s, k);
    assert t.servers == s.servers[serv := None];
  }

  lemma CloseConnRefs(s: State, listen: int, k: int)
    requires Inv(s, listen) && LiveConn(s, k)
    ensures LiveClient(s, s.conns[k].value.clit) && LiveServer(s, s.conns[k].value.serv)
    ensures var t := CloseConn(s, k);
            RefsLive(t) && CountsExact(t) && OneConnPerServer(t)
  {
    CloseConnShape(s, listen, k);
    var clit, serv, t := s.conns[k].value.clit, s.conns[k].value.serv, CloseConn(s, k);
    forall j | LiveConn(t, j)
      ensures LiveClient(t, t.conns[j].value.clit) && LiveServer(t, t.conns[j].value.serv)
    {
      assert LiveConn(s, j);
      assert Accepted(s.conns, OfServer(serv), k) && Accepted(s.conns, OfClient(clit), k);
      CountOfTwo(s.conns, OfServer(serv), k, j);
      CountOfTwo(s.conns, OfClient(clit), k, j);
      assert !Accepted(s.conns, OfServer(serv), j);
    }
    forall i | LiveClient(t, i)
      ensures t.clients[i].value.numServ == Count(t.conns, OfClient(i))
    {
      assert LiveClient(s, i);
      CountUpdate(s.conns, OfClient(i), k, None);
    }
    forall i | LiveServer(t, i)
      ensures t.servers[i].value.numClit == Count(t.conns, OfServer(i)) == 1
    {
      assert LiveServer(s, i) && i != serv;
      CountUpdate(s.conns, OfServer(i), k, None);
    }
  }

  lemma CloseConnCounters(s: State, listen: int, k: int)
    requires Inv(s, listen) && LiveConn(s, k)
    ensures LiveClient(s, s.conns[k].value.clit) && LiveServer(s, s.conns[k].value.serv)
    ensures var t := CloseConn(s, k);
            Sized(t) && Marks(t) && Counters(t) && ThruUnique(t)
  {
    CloseConnShape(s, listen, k);
    var clit, serv, t := s.conns[k].value.clit, s.conns[k].value.serv, CloseConn(s, k);
    LiveUpdate(s.conns, k, None);
    LiveUpdate(s.servers, serv, None);
    LiveUpdate(s.clients, clit, t.clients[clit]);
  }

  lemma CloseConnFds(s: State, listen: int, k: int)
    requires Inv(s, listen) && LiveConn(s, k)
    ensures LiveClient(s, s.conns[k].value.clit) && LiveServer(s, s.conns[k].value.serv)
    ensures FdsDistinct(CloseConn(s, k), listen) && FdSets(CloseConn(s, k), listen)
  {
    CloseConnShape(s, listen, k);
    var clit, serv, t := s.conns[k].value.clit, s.conns[k].value.serv, CloseConn(s, k);
    var gone := s.clients[clit].value.numServ == 1;
    var a, b := s.servers[serv].value.fd, s.clients[clit].value.fd;
    assert t.readSet == s.readSet - {a} - (if gone then {b} else {});
    assert t.writeSet == s.writeSet - {a} - (if gone then {b} else {});
    hide FdsDistinct, FdSets, Inv, CloseConn;
    assert FdsDistinct(s, listen) && FdSets(s, listen) by {
      InvFds(s, listen);
    }
    FdsAfterRemoving(s, t, listen, clit, serv, gone);
  }

  lemma InvFds(s: State, listen: int)
    requires Inv(s, listen)
    ensures FdsDistinct(s, listen) && FdSets(s, listen)
  {
  }

  // t differs from s, as far as descriptors go, by server slot serv being free, and
  // client slot clit if gone.
  lemma FdsAfterRemoving(s: State, t: State, listen: int, clit: int, serv: int, gone: bool)
    requires FdsDistinct(s, listen) && FdSets(s, listen) && LiveClient(s, clit) && LiveServer(s, serv)
    requires forall j :: LiveClient(t, j) <==> LiveClient(s, j) && !(gone && j == clit)
    requires forall j | LiveClient(t, j) :: LiveClient(s, j) && t.clients[j].value.fd == s.clients[j].value.fd
    requires forall j :: LiveServer(t, j) <==> LiveServer(s, j) && j != serv
    requires forall j | LiveServer(t, j) :: LiveServer(s, j) && t.servers[j].value.fd == s.servers[j].value.fd
    requires var a, b := s.servers[serv].value.fd, s.clients[clit].value.fd;
             && t.readSet == s.readSet - {a} - (if gone then {b} else {})
             && t.writeSet == s.writeSet - {a} - (if gone then {b} else {})
             && t.maxfd == s.maxfd
    ensures FdsDistinct(t, listen) && FdSets(t, listen)
  {
    var a, b := s.servers[serv].value.fd, s.clients[clit].value.fd;
    assert HasFd(s, a) && HasFd(s, b);
    forall f
      ensures HasFd(t, f) <==> HasFd(s, f) && f != a && !(gone && f == b)
    {
      if HasFd(t, f) {
        if j :| LiveClient(t, j) && t.clients[j].value.fd == f {
          assert LiveClient(s, j) && s.clients[j].value.fd == f;
        } else {
          var j :| LiveServer(t, j) && t.servers[j].value.fd == f;
          assert LiveServer(s, j) && s.servers[j].value.fd == f;
        }
      }
      if HasFd(s, f) && f != a && !(gone && f == b) {
        if j :| LiveClient(s, j) && s.clients[j].value.fd == f {
          assert LiveClient(t, j) && t.clients[j].value.fd == f;
        } else {
          var j :| LiveServer(s, j) && s.servers[j].value.fd == f;
          assert LiveServer(t, j) && t.servers[j].value.fd == f;
        }
      }
    }
  }

  lemma CloseConnInv(s: State, listen: int, k: int)
    requires Inv(s, listen) && LiveConn(s, k)
    ensures LiveClient(s, s.conns[k].value.clit) && LiveServer(s, s.conns[k].value.serv)
    ensures Inv(CloseConn(s, k), listen)
  {
    CloseConnRefs(s, listen, k);
    CloseConnCounters(s, listen, k);
    CloseConnFds(s, listen, k);
  }

  // ------------------------------------------------------------------ throughput entries

  ghost predicate HasThru(s: State, clitAddr: int, servAddr: int) {
    exists j :: Accepted(s.thrus, OfPair(clitAddr, servAddr), j)
  }

  lemma GetThruFinds(s: State, clitAddr: int, servAddr: int)
    requires Sized(s) && Marks(s)
    ensures var i := GetThru(s, clitAddr, servAddr);
            if HasThru(s, clitAddr, servAddr) then Accepted(s.thrus, OfPair(clitAddr, servAddr), i) else i == -1
  {
    ScanIsComplete(s.thrus, s.maxThru, OfPair(clitAddr, servAddr), 0);
  }

  lemma AddThruInv(s: State, listen: int, clitAddr: int, servAddr: int)
    requires Inv(s, listen) && !HasThru(s, clitAddr, servAddr) && FirstFree(s.thrus) < |s.thrus|
    ensures var t := AddThru(s, clitAddr, servAddr);
            && Inv(t, listen)
            && forall a, b :: HasThru(t, a, b) <==> HasThru(s, a, b) || (a == clitAddr && b == servAddr)
  {
    var t, i := AddThru(s, clitAddr, servAddr), FirstFree(s.thrus);
    SameTablesInv(s, t, listen);
    forall j | 0 <= j < |s.thrus| && s.thrus[j].Some?
      ensures !(s.thrus[j].value.clitAddr == clitAddr && s.thrus[j].value.servAddr == servAddr)
    {
      assert !Accepted(s.thrus, OfPair(clitAddr, servAddr), j);
    }
    forall a, b
      ensures HasThru(t, a, b) <==> HasThru(s, a, b) || (a == clitAddr && b == servAddr)
    {
      if j :| Accepted(s.thrus, OfPair(a, b), j) {
        assert Accepted(t.thrus, OfPair(a, b), j);
      }
      if a == clitAddr && b == servAddr {
        assert Accepted(t.thrus, OfPair(a, b), i);
      }
      if j :| Accepted(t.thrus, OfPair(a, b), j) && j != i {
        assert Accepted(s.thrus, OfPair(a, b), j);
      }
    }
  }

  // Everything but the throughput table only looks at the other tables and counters.
  lemma SameTablesInv(s: State, t: State, listen: int)
    requires Inv(s, listen)
    requires t.clients == s.clients && t.servers == s.servers && t.conns == s.conns
    requires t.readSet == s.readSet && t.writeSet == s.writeSet && t.maxfd == s.maxfd
    ensures RefsLive(t) && CountsExact(t) && OneConnPerServer(t)
    ensures FdsDistinct(t, listen) && FdSets(t, listen)
  {
    assert forall k :: LiveConn(t, k) <==> LiveConn(s, k);
    assert forall i :: LiveClient(t, i) <==> LiveClient(s, i);
    assert forall i :: LiveServer(t, i) <==> LiveServer(s, i);
    forall fd
      ensures HasFd(t, fd) <==> HasFd(s, fd)
    {
      if i :| LiveClient(s, i) && s.clients[i].value.fd == fd {
        assert LiveClient(t, i);
      }
      if i :| LiveServer(s, i) && s.servers[i].value.fd == fd {
        assert LiveServer(t, i);
      }
      if i :| LiveClient(t, i) && t.clients[i].value.fd == fd {
        assert LiveClient(s, i);
      }
      if i :| LiveServer(t, i) && t.servers[i].value.fd == fd {
        assert LiveServer(s, i);
      }
    }
  }
}
