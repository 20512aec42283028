/** The proxy's pool on the heap: four fixed arrays of slots, counters and descriptor
    sets, mutated in place. Every method is proved to take the step that PoolSpec and
    ProxyRuns define on values; a handler may be called whenever that step is no crash. */
module Pool {
  import opened Wrappers
  import opened Slots
  import opened PoolSpec
  import Rates
  import R = ProxyRuns

  class Pool {
    const clientL: array<Option<Client>>
    const serverL: array<Option<Server>>
    const connL: array<Option<Conn>>
    const thruL: array<Option<Thru>>
    var maxClitIdx: int
    var maxServIdx: int
    var maxConnIdx: int
    var maxThruIdx: int
    var curClient: int
    var curServer: int
    var curConn: int
    var readNrdy: set<int>
    var writeNrdy: set<int>
    var maxfd: int
    var alpha: real
    var bitrates: seq<int>

    ghost predicate Valid() {
      && clientL.Length == serverL.Length == connL.Length == thruL.Length == FD_SETSIZE
    }

    // The pool as a value.
    ghost function View(): State
      reads this, clientL, serverL, connL, thruL
    {
      State(clientL[..], serverL[..], connL[..], thruL[..],
            maxClitIdx, maxServIdx, maxConnIdx, maxThruIdx, curClient, curServer, curConn,
            readNrdy, writeNrdy, maxfd, alpha, bitrates)
    }

    constructor (listenSock: int, alpha: real)
      ensures Valid() && View() == Init(listenSock, alpha)
      ensures fresh(clientL) && fresh(serverL) && fresh(connL) && fresh(thruL)
    {
      clientL := new Option<Client>[FD_SETSIZE](_ => None);
      serverL := new Option<Server>[FD_SETSIZE](_ => None);
      connL := new Option<Conn>[FD_SETSIZE](_ => None);
      thruL := new Option<Thru>[FD_SETSIZE](_ => None);
      maxClitIdx, maxServIdx, maxConnIdx, maxThruIdx := -1, -1, -1, -1;
      curClient, curServer, curConn := 0, 0, 0;
      readNrdy, writeNrdy, maxfd := {listenSock}, {}, listenSock;
      this.alpha, bitrates := alpha, [];
      new;
      assert clientL[..] == Empty();
      assert serverL[..] == Empty();
      assert connL[..] == Empty();
      assert thruL[..] == Empty();
    }

    // ---------------------------------------------------------------- clients and servers

    // Takes the first free slot, or does nothing if there is none.
    method AddClient(connSock: int, addr: int) returns (idx: int)
      requires Valid()
      modifies this, clientL
      ensures Valid() && View() == PoolSpec.AddClient(old(View()), connSock, addr)
      ensures idx == (var i := FirstFree(old(View()).clients); if i == FD_SETSIZE then -1 else i)
    {
      var i := 0;
      while i < FD_SETSIZE && clientL[i].Some?
        invariant 0 <= i <= FD_SETSIZE
        invariant forall j | 0 <= j < i :: clientL[j].Some?
      {
        i := i + 1;
      }
      FirstFreeIs(clientL[..], i);
      if i == FD_SETSIZE {
        return -1;
      }
      clientL[i] := Some(Client(connSock, addr, 0));
      curClient := curClient + 1;
      readNrdy := readNrdy + {connSock};
      writeNrdy := writeNrdy + {connSock};
      if connSock > maxfd {
        maxfd := connSock;
      }
      if i > maxClitIdx {
        maxClitIdx := i;
      }
      assert clientL[..] == old(clientL[..])[i := Some(Client(connSock, addr, 0))];
      idx := i;
    }

    method AddServer(sock: int, addr: int) returns (idx: int)
      requires Valid()
      modifies this, serverL
      ensures Valid() && View() == PoolSpec.AddServer(old(View()), sock, addr)
      ensures idx == (var i := FirstFree(old(View()).servers); if i == FD_SETSIZE then -1 else i)
    {
      var i := 0;
      while i < FD_SETSIZE && serverL[i].Some?
        invariant 0 <= i <= FD_SETSIZE
        invariant forall j | 0 <= j < i :: serverL[j].Some?
      {
        i := i + 1;
      }
      FirstFreeIs(serverL[..], i);
      if i == FD_SETSIZE {
        return -1;
      }
      serverL[i] := Some(Server(sock, addr, 0));
      curServer := curServer + 1;
      readNrdy := readNrdy + {sock};
      writeNrdy := writeNrdy + {sock};
      if sock > maxfd {
        maxfd := sock;
      }
      if i > maxServIdx {
        maxServIdx := i;
      }
      assert serverL[..] == old(serverL[..])[i := Some(Server(sock, addr, 0))];
      idx := i;
    }

    method CloseClit(clitIdx: int)
      requires Valid() && LiveClient(View(), clitIdx)
      modifies this, clientL
      ensures Valid() && View() == PoolSpec.CloseClit(old(View()), clitIdx)
    {
      var client := clientL[clitIdx].value;
      readNrdy := readNrdy - {client.fd};
      writeNrdy := writeNrdy - {client.fd};
      clientL[clitIdx] := None;
      curClient := curClient - 1;
      assert clientL[..] == old(clientL[..])[clitIdx := None];
    }

    method CloseServ(servIdx: int)
      requires Valid() && LiveServer(View(), servIdx)
      modifies this, serverL
      ensures Valid() && View() == PoolSpec.CloseServ(old(View()), servIdx)
    {
      var server := serverL[servIdx].value;
      readNrdy := readNrdy - {server.fd};
      writeNrdy := writeNrdy - {server.fd};
      serverL[servIdx] := None;
      curServer := curServer - 1;
      assert serverL[..] == old(serverL[..])[servIdx := None];
    }

    // ---------------------------------------------------------------- connections

    method AddConn(clitIdx: int, servIdx: int) returns (idx: int)
      requires Valid() && LiveClient(View(), clitIdx) && LiveServer(View(), servIdx)
      modifies this, clientL, serverL, connL
      ensures Valid() && View() == PoolSpec.AddConn(old(View()), clitIdx, servIdx)
      ensures idx == (var i := FirstFree(old(View()).conns); if i == FD_SETSIZE then -1 else i)
    {
      var serv, clit := serverL[servIdx].value, clientL[clitIdx].value;
      serverL[servIdx] := Some(serv.(numClit := serv.numClit + 1));
      clientL[clitIdx] := Some(clit.(numServ := clit.numServ + 1));
      assert View() == RaiseCounts(old(View()), clitIdx, servIdx);
      var i := 0;
      while i < FD_SETSIZE && connL[i].Some?
        invariant 0 <= i <= FD_SETSIZE
        invariant forall j | 0 <= j < i :: connL[j].Some?
      {
        i := i + 1;
      }
      FirstFreeIs(connL[..], i);
      if i == FD_SETSIZE {
        return -1;
      }
      connL[i] := Some(Conn(clitIdx, servIdx, 0, 10));
      curConn := curConn + 1;
      if i > maxConnIdx {
        maxConnIdx := i;
      }
      assert connL[..] == old(connL[..])[i := Some(Conn(clitIdx, servIdx, 0, 10))];
      idx := i;
    }

    method CloseConn(connIdx: int)
      requires Valid() && R.TryClose(View(), connIdx).Some?
      modifies this, clientL, serverL, connL
      ensures Valid() && View() == R.TryClose(old(View()), connIdx).value
    {
      var delConn := connL[connIdx].value;
      var servIdx, clitIdx := delConn.serv, delConn.clit;
      var serv, clit := serverL[servIdx].value, clientL[clitIdx].value;
      assert serv.numClit > 0;
      assert clit.numServ > 0;
      serverL[servIdx] := Some(serv.(numClit := serv.numClit - 1));
      clientL[clitIdx] := Some(clit.(numServ := clit.numServ - 1));
      assert View() == LowerCounts(old(View()), clitIdx, servIdx);
      if serverL[servIdx].value.numClit == 0 {
        CloseServ(servIdx);
      }
      if clientL[clitIdx].value.numServ == 0 {
        CloseClit(clitIdx);
      }
      label Closed:
      connL[connIdx] := None;
      curConn := curConn - 1;
      assert connL[..] == old@Closed(connL[..])[connIdx := None];
    }

    method ServerGetConn(fd: int) returns (idx: int)
      requires Valid() && Sized(View()) && RefsLive(View())
      ensures idx == PoolSpec.ServerGetConn(View(), fd)
    {
      ghost var p := OnServerFd(View(), fd);
      var i := 0;
      while i <= maxConnIdx
        invariant 0 <= i
        invariant PoolSpec.ServerGetConn(View(), fd) == Scan(View().conns, maxConnIdx, p, i)
      {
        if connL[i].Some? {
          assert LiveConn(View(), i);
          var server := serverL[connL[i].value.serv].value;
          if server.fd == fd {
            return i;
          }
        }
        i := i + 1;
      }
      return -1;
    }

    method ClientGetConn(fd: int, addr: int) returns (idx: int)
      requires Valid() && Sized(View()) && RefsLive(View())
      ensures idx == PoolSpec.ClientGetConn(View(), fd, addr)
    {
      ghost var p := OnClientAndAddr(View(), fd, addr);
      var i := 0;
      while i <= maxConnIdx
        invariant 0 <= i
        invariant PoolSpec.ClientGetConn(View(), fd, addr) == Scan(View().conns, maxConnIdx, p, i)
      {
        if connL[i].Some? {
          assert LiveConn(View(), i);
          var server := serverL[connL[i].value.serv].value;
          var client := clientL[connL[i].value.clit].value;
          if client.fd == fd && server.addr == addr {
            return i;
          }
        }
        i := i + 1;
      }
      return -1;
    }

    // ---------------------------------------------------------------- throughput

    method GetThruByAddrs(clitAddr: int, servAddr: int) returns (idx: int)
      requires Valid() && Sized(View())
      ensures idx == GetThru(View(), clitAddr, servAddr)
    {
      ghost var p := OfPair(clitAddr, servAddr);
      var i := 0;
      while i <= maxThruIdx
        invariant 0 <= i
        invariant GetThru(View(), clitAddr, servAddr) == Scan(View().thrus, maxThruIdx, p, i)
      {
        if thruL[i].Some? {
          if thruL[i].value.clitAddr == clitAddr && thruL[i].value.servAddr == servAddr {
            return i;
          }
        }
        i := i + 1;
      }
      return -1;
    }

    method AddThru(clitAddr: int, servAddr: int) returns (idx: int)
      requires Valid()
      modifies this, thruL
      ensures Valid() && View() == PoolSpec.AddThru(old(View()), clitAddr, servAddr)
      ensures idx == (var i := FirstFree(old(View()).thrus); if i == FD_SETSIZE then -1 else i)
    {
      var i := 0;
      while i < FD_SETSIZE && thruL[i].Some?
        invariant 0 <= i <= FD_SETSIZE
        invariant forall j | 0 <= j < i :: thruL[j].Some?
      {
        i := i + 1;
      }
      FirstFreeIs(thruL[..], i);
      if i == FD_SETSIZE {
        return -1;
      }
      thruL[i] := Some(Thru(clitAddr, servAddr, 0));
      if i > maxThruIdx {
        maxThruIdx := i;
      }
      assert thruL[..] == old(thruL[..])[i := Some(Thru(clitAddr, servAddr, 0))];
      idx := i;
    }

    method UpdateThruput(sum: int, elapsed: real, connIdx: int, thruIdx: int)
      requires Valid() && LiveConn(View(), connIdx)
      requires 0 <= thruIdx < FD_SETSIZE && View().thrus[thruIdx].Some?
      requires sum > 0 && elapsed != 0.0
      modifies connL, thruL
      ensures Valid() && View() == R.Measure(old(View()), connIdx, thruIdx, Rates.Sample(sum, elapsed))
    {
      var conn, thru := connL[connIdx].value, thruL[thruIdx].value;
      var newThruput := Rates.Sample(sum, elapsed);
      connL[connIdx] := Some(conn.(tPut := Rates.Trunc(newThruput)));
      var currThruput := thru.avgPut;
      if currThruput != 0 {
        newThruput := Rates.Blend(alpha, newThruput, currThruput as real);
      }
      thruL[thruIdx] := Some(thru.(avgPut := Rates.Trunc(newThruput)));
      assert connL[..] == old(connL[..])[connIdx := connL[connIdx]];
      assert thruL[..] == old(thruL[..])[thruIdx := thruL[thruIdx]];
    }

    // ---------------------------------------------------------------- event handlers

    // The accept step of the main loop.
    method Accept(clientSock: int, addr: int)
      requires Valid()
      modifies this, clientL
      ensures Valid() && R.Step(old(View()), R.Accept(clientSock, addr)) == Some(View())
    {
      if curConn <= FD_SETSIZE {
        var idx := AddClient(clientSock, addr);
      }
    }

    // A readable client. servAddr is the server's fixed or resolved address, newFd the
    // socket that opening a connection to it yields.
    method Client2Server(clitIdx: int, servAddr: int, newFd: int, headersOk: bool, video: bool)
      requires Valid() && R.Client2Server(View(), clitIdx, servAddr, newFd, headersOk, video).Some?
      modifies this, clientL, serverL, connL, thruL
      ensures Valid() && Some(View()) == R.Client2Server(old(View()), clitIdx, servAddr, newFd, headersOk, video)
    {
      var client := clientL[clitIdx].value;
      var connIdx := ClientGetConn(client.fd, servAddr);
      if connIdx == -1 {
        connIdx := Open(clitIdx, newFd, servAddr);
      }
      if !headersOk {
        CloseConn(connIdx);
        return;
      }
      ForwardRequest(clitIdx, connIdx, video);
    }

    method Open(clitIdx: int, servFd: int, servAddr: int) returns (connIdx: int)
      requires Valid() && R.TryOpen(View(), clitIdx, servFd, servAddr).Some?
      modifies this, clientL, serverL, connL
      ensures Valid() && Some((View(), connIdx)) == R.TryOpen(old(View()), clitIdx, servFd, servAddr)
    {
      var servIdx := AddServer(servFd, servAddr);
      connIdx := AddConn(clitIdx, servIdx);
    }

    method ForwardRequest(clitIdx: int, connIdx: int, video: bool)
      requires Valid() && Sized(View()) && R.Forward(View(), clitIdx, connIdx, video).Some?
      modifies this, connL, thruL
      ensures Valid() && Some(View()) == R.Forward(old(View()), clitIdx, connIdx, video)
    {
      var conn, client := connL[connIdx].value, clientL[clitIdx].value;
      var server := serverL[conn.serv].value;
      var thruIdx := GetThruByAddrs(client.addr, server.addr);
      if thruIdx == -1 {
        thruIdx := AddThru(client.addr, server.addr);
      }
      if video {
        var chosenRate := Rates.ChooseRate(bitrates, thruL[thruIdx].value.avgPut);
        connL[connIdx] := Some(conn.(curBitrate := chosenRate));
        assert connL[..] == old(connL[..])[connIdx := connL[connIdx]];
      }
    }

    // A readable server; reply is what reading its response and passing it on came to.
    method Server2Client(servIdx: int, reply: R.Reply)
      requires Valid() && R.Server2Client(View(), servIdx, reply).Some?
      modifies this, clientL, serverL, connL, thruL
      ensures Valid() && Some(View()) == R.Server2Client(old(View()), servIdx, reply)
    {
      var server := serverL[servIdx].value;
      var connIdx := ServerGetConn(server.fd);
      var conn := connL[connIdx].value;
      assert LiveConn(View(), connIdx);
      var client := clientL[conn.clit].value;
      match reply
      case Useless =>
        CloseConn(connIdx);
      case PlainXml =>
      case ListXml(rates, reopen) =>
        var thruIdx := GetThruByAddrs(client.addr, server.addr);
        bitrates := rates;
        if reopen.Some? {
          var newConn := Open(conn.clit, reopen.value.0, reopen.value.1);
        }
      case Body(sum, elapsed, sent) =>
        var thruIdx := GetThruByAddrs(client.addr, server.addr);
        UpdateThruput(sum, elapsed, connIdx, thruIdx);
        if !sent {
          CloseConn(connIdx);
        }
    }
  }

  lemma FirstFreeIs<T>(slots: seq<Option<T>>, i: nat)
    requires i <= |slots| && (i < |slots| ==> slots[i].None?)
    requires forall j | 0 <= j < i :: slots[j].Some?
    ensures FirstFree(slots) == i
  {
  }
}
