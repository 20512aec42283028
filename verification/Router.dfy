/** The name server's router on the heap: the node table, the lists of pointers into it,
    the neighbour lists that are freed and rebuilt on every newer announcement, the
    breadth-first search over mark fields and the routing table. Ghost state ties all
    of it to the pure database of LsaDatabase. */
module Router {
  import opened Wrappers
  import opened Graphs
  import opened LinkedCells
  import MyQueue
  import L = LsaDatabase
  import N = NearestServer
  import R = Routing

  class Node {
    const name: Name
    var neighbors: Cell?<Cell<Node>>
    var seqNum: int
    var mark: int

    // The cells of the neighbour list.
    ghost var nbrs: seq<Cell<Cell<Node>>>

    constructor (name: Name)
      ensures this.name == name && neighbors == null && nbrs == [] && seqNum == -1
    {
      this.name := name;
      neighbors, seqNum, mark := null, -1, 0;
      nbrs := [];
    }
  }

  // A routing table entry.
  class Route {
    const clit: Node
    var serv: Node?

    constructor (clit: Node)
      ensures this.clit == clit && serv == null
    {
      this.clit := clit;
      serv := null;
    }
  }

  // An entry by names.
  ghost function Pair(entry: Route): (Name, Option<Name>)
    reads entry
  {
    (entry.clit.name, if entry.serv == null then None else Some(entry.serv.name))
  }

  // The names behind a list of pointers into the node table.
  ghost function Names(cells: seq<Cell<Cell<Node>>>): (r: seq<Name>)
    ensures |r| == |cells| && forall i | 0 <= i < |cells| :: r[i] == cells[i].data.data.name
  {
    seq(|cells|, i requires 0 <= i < |cells| => cells[i].data.data.name)
  }

  ghost function NodeNames(nodes: seq<Node>): (r: seq<Name>)
    ensures |r| == |nodes| && forall i | 0 <= i < |nodes| :: r[i] == nodes[i].name
  {
    seq(|nodes|, i requires 0 <= i < |nodes| => nodes[i].name)
  }

  ghost function NodesOf(table: seq<Cell<Node>>): set<Node> {
    set c | c in table :: c.data
  }

  // One node's fields agree with its record, and its neighbour list is made of live
  // cells of its own that point into the node table.
  ghost predicate NodeOk(n: Node, table: seq<Cell<Node>>, recs: map<Name, L.Rec>)
    reads n`neighbors, n`seqNum, n`nbrs, set c | c in n.nbrs
  {
    && IsList(n, n.neighbors, n.nbrs)
    && (forall c | c in n.nbrs :: c.data in table)
    && n.name in recs && recs[n.name] == L.Rec(n.seqNum, Names(n.nbrs))
  }

  // The node table lists the known names in order, each once.
  ghost predicate TableOk(table: seq<Cell<Node>>, db: L.Db) {
    && |table| == |db.order|
    && (forall i | 0 <= i < |table| :: table[i].data.name == db.order[i])
    && (forall i, j | 0 <= i < j < |db.order| :: db.order[i] != db.order[j])
    && (forall n :: n in db.recs <==> n in db.order)
  }

  // A list of pointers into the node table stands for these names.
  ghost predicate PointersOk(cells: seq<Cell<Cell<Node>>>, table: seq<Cell<Node>>, names: seq<Name>) {
    (forall c | c in cells :: c.data in table) && Names(cells) == names
  }

  // Comparing pointers into the node table is comparing names.
  lemma PointerIsName(table: seq<Cell<Node>>, db: L.Db, c: Cell<Node>, c': Cell<Node>)
    requires TableOk(table, db) && c in table && c' in table
    ensures c == c' <==> c.data.name == c'.data.name
    ensures c == c' <==> c.data == c'.data
  {
    var i :| 0 <= i < |table| && table[i] == c;
    var j :| 0 <= j < |table| && table[j] == c';
    assert c.data.name == db.order[i] && c'.data.name == db.order[j];
  }

  // So searching a pointer list for a pointer decides membership by name.
  lemma MembershipIsByName(cells: seq<Cell<Cell<Node>>>, table: seq<Cell<Node>>, db: L.Db, names: seq<Name>,
                           c: Cell<Node>)
    requires TableOk(table, db) && PointersOk(cells, table, names) && c in table
    ensures c in Data(cells) <==> c.data.name in names
  {
    if c in Data(cells) {
      var i :| 0 <= i < |cells| && Data(cells)[i] == c;
      assert names[i] == c.data.name;
    }
    if c.data.name in names {
      var i :| 0 <= i < |names| && names[i] == c.data.name;
      assert cells[i] in cells;
      PointerIsName(table, db, cells[i].data, c);
      assert Data(cells)[i] == c;
    }
  }

  datatype Look = Marked | Server | Unseen

  // A scan either queued nothing or marked a node that was unmarked.
  ghost predicate Progress(g: Graph, names0: seq<Name>, marked0: set<Name>, names: seq<Name>, marked: set<Name>) {
    if marked == marked0 then names == names0
    else |Targets(g) - marked| < |Targets(g) - marked0|
  }


  lemma ProgressMade(g: Graph, names0: seq<Name>, marked0: set<Name>, names: seq<Name>, marked: set<Name>, x: Name)
    requires Progress(g, names0, marked0, names, marked)
    requires |Targets(g) - (marked + {x})| < |Targets(g) - marked|
    ensures Progress(g, names0, marked0, names + [x], marked + {x})
  {
    assert marked == marked0 ==> |Targets(g) - marked| == |Targets(g) - marked0|;
  }

  // The neighbour loop at index i of the list out, heading for the outcome goal.
  ghost predicate Scanning(db: L.Db, out: seq<Name>, i: nat, names0: seq<Name>, marked0: set<Name>,
                           names: seq<Name>, marked: set<Name>, goal: Option<Name>)
  {
    && i <= |out| && (forall x | x in out :: x in Targets(db.Graph()))
    && goal == N.Visit(db.Graph(), db.Servers(), out[i..], names, marked)
    && Progress(db.Graph(), names0, marked0, names, marked)
  }

  lemma ScanStarts(db: L.Db, out: seq<Name>, names: seq<Name>, marked: set<Name>, goal: Option<Name>)
    requires forall x | x in out :: x in Targets(db.Graph())
    requires goal == N.Visit(db.Graph(), db.Servers(), out, names, marked)
    ensures Scanning(db, out, 0, names, marked, names, marked, goal)
  {
    assert out[0..] == out;
  }

  lemma ScanStep(db: L.Db, out: seq<Name>, i: nat, names0: seq<Name>, marked0: set<Name>,
                 names: seq<Name>, marked: set<Name>, goal: Option<Name>)
    requires Scanning(db, out, i, names0, marked0, names, marked, goal) && i < |out|
    ensures if out[i] in marked then Scanning(db, out, i + 1, names0, marked0, names, marked, goal)
            else if out[i] in db.Servers() then goal == Some(out[i])
            else
              && Scanning(db, out, i, names0, marked0, names + [out[i]], marked + {out[i]}, goal)
              && |Targets(db.Graph()) - (marked + {out[i]})| < |Targets(db.Graph()) - marked|
  {
    hide N.Visit, Targets, Progress;
    N.VisitStep(db.Graph(), db.Servers(), out, i, names, marked);
    if out[i] !in marked && out[i] !in db.Servers() {
      ProgressMade(db.Graph(), names0, marked0, names, marked, out[i]);
    }
  }

  lemma ScanEnds(db: L.Db, out: seq<Name>, names0: seq<Name>, marked0: set<Name>,
                 names: seq<Name>, marked: set<Name>, goal: Option<Name>)
    requires Scanning(db, out, |out|, names0, marked0, names, marked, goal)
    ensures goal == N.Visit(db.Graph(), db.Servers(), [], names, marked)
    ensures Progress(db.Graph(), names0, marked0, names, marked)
  {
    assert out[|out|..] == [];
  }

  class Ospf {
    var nodes: Cell?<Node>
    var servs: Cell?<Cell<Node>>
    var clits: Cell?<Cell<Node>>
    var routingTable: Cell?<Route>
    var queryCount: nat

    ghost var nodeCells: seq<Cell<Node>>
    ghost var servCells: seq<Cell<Cell<Node>>>
    ghost var clitCells: seq<Cell<Cell<Node>>>
    ghost var routeCells: seq<Cell<Route>>

    // Everything allocated for the database so far.
    ghost var Repr: set<object>

    // The name-level view: the database, and the routing table as pairs of names.
    ghost var db: L.Db
    ghost var table: seq<(Name, Option<Name>)>

    ghost function Nodes(): set<Node>
      reads this`nodeCells
    {
      NodesOf(nodeCells)
    }

    ghost predicate NodesValid()
      reads this`nodes, this`nodeCells, this`db, set c | c in nodeCells
      reads Nodes()`neighbors, Nodes()`seqNum, Nodes()`nbrs, set n, c | n in Nodes() && c in n.nbrs :: c
    {
      && IsList(this, nodes, nodeCells)
      && TableOk(nodeCells, db)
      && (forall n | n in Nodes() :: NodeOk(n, nodeCells, db.recs))
    }

    ghost predicate ListsValid()
      reads this`servs, this`clits, this`servCells, this`clitCells, this`nodeCells, this`db
      reads set c | c in servCells
      reads set c | c in clitCells
    {
      && IsList(this, servs, servCells) && PointersOk(servCells, nodeCells, db.servs)
      && IsList(this, clits, clitCells) && PointersOk(clitCells, nodeCells, db.clits)
      && (forall c | c in servCells :: c !in clitCells)
    }

    ghost predicate Owned()
      reads this`Repr, this`nodeCells, this`servCells, this`clitCells, Nodes()`nbrs
    {
      && (forall c | c in nodeCells :: c in Repr)
      && (forall c | c in servCells :: c in Repr)
      && (forall c | c in clitCells :: c in Repr)
      && (forall n | n in Nodes() :: n in Repr)
      && (forall n, c | n in Nodes() && c in n.nbrs :: c in Repr)
    }

    ghost predicate DbValid()
      reads this`nodes, this`nodeCells, this`db, set c | c in nodeCells
      reads Nodes()`neighbors, Nodes()`seqNum, Nodes()`nbrs, set n, c | n in Nodes() && c in n.nbrs :: c
      reads this`servs, this`clits, this`servCells, this`clitCells, this`Repr
      reads set c | c in servCells
      reads set c | c in clitCells
    {
      NodesValid() && ListsValid() && Owned()
    }

    ghost predicate RoutesValid()
      reads this`routingTable, this`routeCells, this`table
      reads set c | c in routeCells
      reads set c | c in routeCells :: c.data
    {
      && IsList(this, routingTable, routeCells)
      && |table| == |routeCells|
      && (forall i {:trigger routeCells[i].data} | 0 <= i < |table| :: table[i] == Pair(routeCells[i].data))
    }

    constructor ()
      ensures DbValid() && db == L.EMPTY && Repr == {}
      ensures RoutesValid() && table == [] && routeCells == [] && queryCount == 0
    {
      nodes, servs, clits, routingTable, queryCount := null, null, null, null, 0;
      nodeCells, servCells, clitCells, routeCells := [], [], [], [];
      db, table, Repr := L.EMPTY, [], {};
    }

    // ---------------------------------------------------------------- nodes

    // Finds the table cell of a name, creating the node at the end if it is new.
    method AddNewNode(name: Name) returns (tmp: Cell<Node>)
      requires DbValid()
      modifies this`nodes, this`nodeCells, this`db, this`Repr, (set c | c in nodeCells)`next
      ensures DbValid() && fresh(Repr - old(Repr))
      ensures db == L.AddNode(old(db), name)
      ensures tmp in nodeCells && tmp.data.name == name
      ensures old(nodeCells) <= nodeCells
    {
      hide NodeOk, PointersOk;
      var found, at := FindCustom(nodes, (n: Node) => n.name == name, this, nodeCells);
      if found == null {
        assert name !in db.order;
        AppendNode(name);
        found, at := FindCustom(nodes, (n: Node) => n.name == name, this, nodeCells);
        assert nodeCells[|old(nodeCells)|].data.name == name;
      } else {
        assert db.order[at] == name;
      }
      tmp := found;
    }

    method AppendNode(name: Name)
      requires DbValid() && name !in db.recs
      modifies this`nodes, this`nodeCells, this`db, this`Repr, (set c | c in nodeCells)`next
      ensures DbValid() && fresh(Repr - old(Repr))
      ensures db == L.AddNode(old(db), name)
      ensures |nodeCells| == |old(nodeCells)| + 1 && old(nodeCells) <= nodeCells
      ensures nodeCells[|old(nodeCells)|].data.name == name
    {
      hide NodeOk, IsList, PointersOk, TableOk;
      ghost var table, db0 := nodeCells, db;
      ghost var recs := db0.recs;
      db := L.AddNode(db, name);
      var c := AppendNodeCell(name);
      forall n | n in NodesOf(table)
        ensures NodeOk(n, nodeCells, recs[name := L.UNHEARD])
      {
        assert NodeOk(n, table, recs);
        NodeOkGrows(n, table, recs, nodeCells, recs[name := L.UNHEARD]);
      }
      PointersOkGrows(servCells, table, nodeCells, db.servs);
      PointersOkGrows(clitCells, table, nodeCells, db.clits);
      GrownTable(table, c, db0, name);
      GrownNodes(table, c);
      BareNodeOk(c.data, nodeCells, recs[name := L.UNHEARD]);
      assert db.recs == recs[name := L.UNHEARD];
      assert forall n | n in Nodes() :: NodeOk(n, nodeCells, db.recs);
      assert NodesValid();
      assert ListsValid();
      assert Owned();
    }

    method AppendNodeCell(name: Name) returns (ghost c: Cell<Node>)
      requires IsList(this, nodes, nodeCells)
      modifies this`nodes, this`nodeCells, this`Repr, (set c | c in nodeCells)`next
      ensures IsList(this, nodes, nodeCells) && nodeCells == old(nodeCells) + [c]
      ensures fresh(c) && fresh(c.data) && c.data.name == name
      ensures c.data.seqNum == -1 && c.data.neighbors == null && c.data.nbrs == []
      ensures Repr == old(Repr) + {c, c.data}
    {
      hide IsList, Chain;
      var newNode := new Node(name);
      ListIsChain(this, nodes, nodeCells);
      nodes, c := Append(nodes, newNode, this, nodeCells);
      nodeCells := nodeCells + [c];
      Repr := Repr + {c, newNode};
    }

    // ---------------------------------------------------------------- neighbours

    // Lists of different owners share no cell.
    lemma SeparateNeighbours(n: Node, m: Node)
      requires NodesValid() && n in Nodes() && m in Nodes() && n != m
      ensures n.name != m.name
      ensures forall c | c in n.nbrs :: c !in m.nbrs
    {
      assert NodeOk(n, nodeCells, db.recs) && NodeOk(m, nodeCells, db.recs);
      var c :| c in nodeCells && c.data == n;
      var d :| d in nodeCells && d.data == m;
      PointerIsName(nodeCells, db, c, d);
    }

    lemma SeparateLists(n: Node)
      requires DbValid() && n in Nodes()
      ensures forall c | c in n.nbrs :: c !in servCells && c !in clitCells
    {
      assert NodeOk(n, nodeCells, db.recs);
    }

    // Adds a pointer to a node's neighbour list unless it is there already.
    method AddNewNeighbor(node: Node, neighbor: Cell<Node>)
      requires DbValid() && node in Nodes() && neighbor in nodeCells
      modifies node`neighbors, node`nbrs, (set c | c in node.nbrs)`next, this`db, this`Repr
      ensures DbValid() && fresh(Repr - old(Repr))
      ensures node.name in old(db).recs && db == L.AddNeighbor(old(db), node.name, neighbor.data.name)
    {
      hide NodeOk, IsList, PointersOk, TableOk, Chain;
      KnownNeighbour(node, neighbor);
      var tmp := Find(node.neighbors, neighbor, node, node.nbrs);
      if tmp == null {
        AppendNeighbor(node, neighbor);
      }
    }

    lemma KnownNeighbour(node: Node, neighbor: Cell<Node>)
      requires NodesValid() && node in Nodes() && neighbor in nodeCells
      ensures Chain(node, node.neighbors, node.nbrs)
      ensures node.name in db.recs && neighbor.data.name in db.recs
      ensures neighbor in Data(node.nbrs) <==> neighbor.data.name in db.recs[node.name].neighbors
    {
      assert NodeOk(node, nodeCells, db.recs);
      MembershipIsByName(node.nbrs, nodeCells, db, Names(node.nbrs), neighbor);
      var i :| 0 <= i < |nodeCells| && nodeCells[i] == neighbor;
      assert db.order[i] == neighbor.data.name;
    }

    method AppendNeighbor(node: Node, neighbor: Cell<Node>)
      requires DbValid() && node in Nodes() && neighbor in nodeCells
      requires node.name in db.recs && neighbor.data.name in db.recs
      requires neighbor.data.name !in db.recs[node.name].neighbors
      modifies node`neighbors, node`nbrs, (set c | c in node.nbrs)`next, this`db, this`Repr
      ensures DbValid() && fresh(Repr - old(Repr))
      ensures db == L.AddNeighbor(old(db), node.name, neighbor.data.name)
    {
      hide NodeOk, IsList, PointersOk, TableOk;
      ghost var db0 := db;
      forall n | n in Nodes() && n != node
        ensures n.name != node.name && forall c | c in n.nbrs :: c !in node.nbrs
      {
        SeparateNeighbours(n, node);
      }
      SeparateLists(node);
      db := L.AddNeighbor(db0, node.name, neighbor.data.name);
      AppendNeighborCell(node, neighbor, nodeCells, db0.recs);
      assert ListsValid();
      assert Owned();
      assert IsList(this, nodes, nodeCells);
      SameTable(nodeCells, db0, db);
      assert NodeOk(node, nodeCells, db.recs);
      forall n | n in Nodes()
        ensures NodeOk(n, nodeCells, db.recs)
      {
        if n != node {
          assert NodeOk(n, nodeCells, db0.recs);
          NodeOkGrows(n, nodeCells, db0.recs, nodeCells, db.recs);
        }
      }
      assert NodesValid();
    }

    method AppendNeighborCell(node: Node, neighbor: Cell<Node>, ghost table: seq<Cell<Node>>,
                              ghost recs: map<Name, L.Rec>)
      requires NodeOk(node, table, recs) && neighbor in table
      modifies node`neighbors, node`nbrs, (set c | c in node.nbrs)`next, this`Repr
      ensures forall c | c in node.nbrs :: c in old(node.nbrs) || (fresh(c) && c in Repr)
      ensures var rec := recs[node.name];
              NodeOk(node, table, recs[node.name := rec.(neighbors := rec.neighbors + [neighbor.data.name])])
      ensures old(Repr) <= Repr && fresh(Repr - old(Repr))
    {
      hide IsList, Chain, NodeOk, Names;
      ghost var c;
      NodeParts(node, table, recs);
      ghost var before, rec := node.nbrs, recs[node.name];
      ListIsChain(node, node.neighbors, node.nbrs);
      node.neighbors, c := Append(node.neighbors, neighbor, node, node.nbrs);
      node.nbrs := node.nbrs + [c];
      Repr := Repr + {c};
      NamesGrow(before, c);
      NodeFromParts(node, table, recs[node.name := rec.(neighbors := rec.neighbors + [neighbor.data.name])]);
    }

    // Frees the neighbour list and stores the newer sequence number.
    method ClearNode(node: Node, seqNum: int)
      requires DbValid() && node in Nodes()
      modifies node`neighbors, node`nbrs, node`seqNum, (set c | c in node.nbrs)`live, this`db
      ensures DbValid()
      ensures db == L.ClearRec(old(db), node.name, seqNum)
      ensures forall c | c in old(node.nbrs) :: !c.live
    {
      hide NodeOk, IsList, PointersOk, TableOk, Chain, Names;
      ghost var db0 := db;
      ghost var recs' := db0.recs[node.name := L.Rec(seqNum, [])];
      forall n | n in Nodes() && n != node
        ensures n.name != node.name && forall c | c in n.nbrs :: c !in node.nbrs
      {
        SeparateNeighbours(n, node);
      }
      SeparateLists(node);
      KnownNode(node);
      db := L.ClearRec(db, node.name, seqNum);
      ClearFields(node, seqNum);
      forall n | n in Nodes() && n != node
        ensures NodeOk(n, nodeCells, recs')
      {
        assert NodeOk(n, nodeCells, db0.recs);
        NodeOkGrows(n, nodeCells, db0.recs, nodeCells, recs');
      }
      BareNodeOk(node, nodeCells, recs');
      SameTable(nodeCells, db0, db);
      assert NodesValid();
      assert ListsValid();
      assert Owned();
    }

    method ClearFields(node: Node, seqNum: int)
      requires Chain(node, node.neighbors, node.nbrs)
      modifies node`neighbors, node`nbrs, node`seqNum, (set c | c in node.nbrs)`live
      ensures node.neighbors == null && node.nbrs == [] && node.seqNum == seqNum
      ensures forall c | c in old(node.nbrs) :: !c.live
    {
      node.seqNum := seqNum;
      Free(node.neighbors, node, node.nbrs);
      node.neighbors := null;
      node.nbrs := [];
    }

    lemma KnownNode(node: Node)
      requires NodesValid() && node in Nodes()
      ensures node.name in db.recs && db.recs[node.name].seqNum == node.seqNum
      ensures Chain(node, node.neighbors, node.nbrs)
    {
      assert NodeOk(node, nodeCells, db.recs);
    }

    // ---------------------------------------------------------------- servers and clients

    method AppendServer(tmp: Cell<Node>)
      requires DbValid() && tmp in nodeCells
      modifies this`servs, this`servCells, this`db, this`Repr, (set c | c in servCells)`next
      ensures DbValid() && fresh(Repr - old(Repr))
      ensures db == old(db).(servs := old(db).servs + [tmp.data.name])
    {
      hide NodeOk, IsList, PointersOk, TableOk, Chain;
      forall n | n in Nodes()
        ensures forall c | c in n.nbrs :: c !in servCells && c !in clitCells
      {
        SeparateLists(n);
      }
      ghost var db0 := db;
      db := db.(servs := db.servs + [tmp.data.name]);
      ghost var c;
      servs, c := AppendPointer(servs, tmp, servCells, db0.servs);
      servCells := servCells + [c];
      Repr := Repr + {c};
      SameTable(nodeCells, db0, db);
      assert NodesValid();
      assert ListsValid();
      assert Owned();
    }

    // Adds a pointer at the end of one of the two pointer lists.
    method AppendPointer(list: Cell?<Cell<Node>>, tmp: Cell<Node>, ghost cells: seq<Cell<Cell<Node>>>,
                         ghost names: seq<Name>)
      returns (r: Cell<Cell<Node>>, ghost c: Cell<Cell<Node>>)
      requires IsList(this, list, cells) && PointersOk(cells, nodeCells, names) && tmp in nodeCells
      modifies (set c | c in cells)`next
      ensures IsList(this, r, cells + [c]) && PointersOk(cells + [c], nodeCells, names + [tmp.data.name])
      ensures fresh(c)
    {
      hide IsList, Chain;
      ListIsChain(this, list, cells);
      r, c := Append(list, tmp, this, cells);
    }

    method AppendClient(tmp: Cell<Node>)
      requires DbValid() && tmp in nodeCells
      modifies this`clits, this`clitCells, this`db, this`Repr, (set c | c in clitCells)`next
      ensures DbValid() && fresh(Repr - old(Repr))
      ensures db == old(db).(clits := old(db).clits + [tmp.data.name])
    {
      hide NodeOk, IsList, PointersOk, TableOk, Chain;
      forall n | n in Nodes()
        ensures forall c | c in n.nbrs :: c !in servCells && c !in clitCells
      {
        SeparateLists(n);
      }
      ghost var db0 := db;
      db := db.(clits := db.clits + [tmp.data.name]);
      ghost var c;
      clits, c := AppendPointer(clits, tmp, clitCells, db0.clits);
      clitCells := clitCells + [c];
      Repr := Repr + {c};
      SameTable(nodeCells, db0, db);
      assert NodesValid();
      assert ListsValid();
      assert Owned();
    }

    method ParseServs(names: seq<Name>)
      requires DbValid()
      modifies this, Repr
      ensures DbValid() && fresh(Repr - old(Repr))
      ensures db == L.AddServers(old(db), names)
      ensures unchanged(this`routingTable, this`routeCells, this`table, this`queryCount)
    {
      hide DbValid;
      assert names[..0] == [];
      for i := 0 to |names|
        invariant DbValid() && fresh(Repr - old(Repr))
        invariant db == L.AddServers(old(db), names[..i])
        invariant unchanged(this`routingTable, this`routeCells, this`table, this`queryCount)
      {
        OwnedParts();
        var tmp := AddNewNode(names[i]);
        OwnedParts();
        AppendServer(tmp);
        ServersStep(old(db), names, i);
      }
      assert names[..|names|] == names;
    }

    // An announcing node that is neither a server nor a router becomes a client once.
    method NoteClient(tmp: Cell<Node>)
      requires DbValid() && tmp in nodeCells
      modifies this`clits, this`clitCells, this`db, this`Repr, (set c | c in clitCells)`next
      ensures DbValid() && fresh(Repr - old(Repr))
      ensures db == L.AddClient(old(db), tmp.data.name)
    {
      hide NodeOk, TableOk, PointersOk, Chain;
      KnownPointer(tmp);
      var serv := Find(servs, tmp, this, servCells);
      if serv == null {
        if !L.IsRouter(tmp.data.name) {
          var clit := Find(clits, tmp, this, clitCells);
          if clit == null {
            AppendClient(tmp);
          }
        }
      }
    }

    lemma KnownPointer(tmp: Cell<Node>)
      requires DbValid() && tmp in nodeCells
      ensures Chain(this, servs, servCells) && Chain(this, clits, clitCells)
      ensures tmp in Data(servCells) <==> tmp.data.name in db.servs
      ensures tmp in Data(clitCells) <==> tmp.data.name in db.clits
    {
      MembershipIsByName(servCells, nodeCells, db, db.servs, tmp);
      MembershipIsByName(clitCells, nodeCells, db, db.clits, tmp);
    }

    // One line of the announcement file.
    method AddLine(l: L.Lsa)
      requires DbValid()
      modifies this, Repr
      ensures DbValid() && fresh(Repr - old(Repr))
      ensures db == L.AddLsa(old(db), l)
      ensures unchanged(this`routingTable, this`routeCells, this`table, this`queryCount)
    {
      hide DbValid;
      OwnedParts();
      var tmp := AddNewNode(l.sender);
      OwnedParts();
      NoteClient(tmp);
      var tmpNode := tmp.data;
      TableNode(tmp);
      if tmpNode.seqNum >= l.seqNum {
        return;
      }
      OwnedParts();
      ClearNode(tmpNode, l.seqNum);
      AddNeighbors(tmp, l.neighbors);
    }

    lemma TableNode(tmp: Cell<Node>)
      requires DbValid() && tmp in nodeCells
      ensures tmp.data in Nodes()
      ensures tmp.data.seqNum == L.RecOf(db, tmp.data.name).seqNum && tmp.data.name in db.recs
    {
      KnownNode(tmp.data);
    }

    method AddNeighbors(tmp: Cell<Node>, names: seq<Name>)
      requires DbValid() && tmp in nodeCells && tmp.data.name in db.recs
      modifies this, Repr
      ensures DbValid() && fresh(Repr - old(Repr))
      ensures db == L.AddNeighbors(old(db), tmp.data.name, names)
      ensures unchanged(this`routingTable, this`routeCells, this`table, this`queryCount)
    {
      hide DbValid, L.AddNeighbor;
      for i := 0 to |names|
        invariant DbValid() && fresh(Repr - old(Repr))
        invariant tmp in nodeCells
        invariant db == L.AddNeighbors(old(db), tmp.data.name, names[..i])
        invariant unchanged(this`routingTable, this`routeCells, this`table, this`queryCount)
      {
        OwnedParts();
        ghost var before := db;
        var n := AddNewNode(names[i]);
        OwnedParts();
        TableNode(tmp);
        AddNewNeighbor(tmp.data, n);
        NeighborsStep(old(db), tmp.data.name, names, i);
        NodeThenNeighbor(before, tmp.data.name, names[i]);
      }
      assert names[..|names|] == names;
    }

    method ParseLsa(log: seq<L.Lsa>)
      requires DbValid()
      modifies this, Repr
      ensures DbValid() && fresh(Repr - old(Repr))
      ensures db == L.AddLog(old(db), log)
      ensures unchanged(this`routingTable, this`routeCells, this`table, this`queryCount)
    {
      hide DbValid, L.AddLsa;
      for i := 0 to |log|
        invariant DbValid() && fresh(Repr - old(Repr))
        invariant db == L.AddLog(old(db), log[..i])
        invariant unchanged(this`routingTable, this`routeCells, this`table, this`queryCount)
      {
        AddLine(log[i]);
        assert log[..i + 1][..i] == log[..i];
      }
      assert log[..|log|] == log;
    }

    // ---------------------------------------------------------------- search

    // The marked nodes, by name, are exactly these.
    ghost predicate MarksAre(marked: set<Name>)
      reads this`nodeCells, Nodes()`mark
    {
      forall n | n in Nodes() :: n.mark != 0 <==> n.name in marked
    }

    lemma TableList()
      requires DbValid()
      ensures IsList(this, nodes, nodeCells)
    {
    }

    method UnmarkAll()
      requires IsList(this, nodes, nodeCells)
      modifies Nodes()`mark
      ensures MarksAre({})
    {
      var cur := nodes;
      ghost var i := 0;
      while cur != null
        invariant 0 <= i <= |nodeCells| && cur == At(nodeCells, i)
        invariant forall j | 0 <= j < i :: nodeCells[j].data.mark == 0
        decreases |nodeCells| - i
      {
        assert cur in nodeCells;
        cur.data.mark := 0;
        cur := cur.next;
        i := i + 1;
      }
    }

    // The queue holds table nodes; these are their names.
    ghost predicate Queued(q: MyQueue.Queue<Node>, names: seq<Name>)
      reads this`nodeCells, q, set c | c in q.cells
    {
      && q.Valid()
      && NodeNames(q.Contents()) == names
      && forall n | n in q.Contents() :: n in Nodes()
    }

    // One step of the search for a neighbour that is neither marked nor a server.
    method QueueNode(tmp: Node, q: MyQueue.Queue<Node>, ghost names: seq<Name>, ghost marked: set<Name>)
      requires DbValid() && tmp in Nodes()
      requires Queued(q, names) && MarksAre(marked) && forall c | c in q.cells :: c !in nodeCells
      modifies q, (set c | c in q.cells), tmp`mark
      ensures DbValid()
      ensures Queued(q, names + [tmp.name]) && MarksAre(marked + {tmp.name})
      ensures forall c | c in q.cells :: c in old(q.cells) || fresh(c)
    {
      hide NodeOk, IsList, TableOk, Chain, DbValid;
      NamesTellNodesApart(tmp);
      q.PushTail(tmp);
      assert DbValid();
      tmp.mark := 1;
      assert NodeNames(q.Contents()) == names + [tmp.name];
    }

    lemma NamesTellNodesApart(n: Node)
      requires DbValid() && n in Nodes()
      ensures forall m | m in Nodes() && m != n :: m.name != n.name
    {
      forall m | m in Nodes() && m != n
        ensures m.name != n.name
      {
        SeparateNeighbours(m, n);
      }
    }

    // One round of the neighbour loop: what to do about the neighbour under the cursor.
    method LookAt(pointer: Cell<Node>, q: MyQueue.Queue<Node>, ghost names: seq<Name>, ghost marked: set<Name>)
      returns (look: Look)
      requires DbValid() && pointer in nodeCells
      requires Queued(q, names) && MarksAre(marked) && forall c | c in q.cells :: c !in nodeCells
      modifies q, (set c | c in q.cells), pointer.data`mark
      ensures DbValid()
      ensures var x := pointer.data.name;
              look == if x in marked then Marked else if x in db.Servers() then Server else Unseen
      ensures forall c | c in q.cells :: c in old(q.cells) || fresh(c)
      ensures Queued(q, if look == Unseen then names + [pointer.data.name] else names)
      ensures MarksAre(if look == Unseen then marked + {pointer.data.name} else marked)
    {
      hide NodeOk, TableOk, PointersOk, IsList, Chain, DbValid, Queued, MarksAre;
      var tmp := pointer.data;
      TableNode(pointer);
      MarkTells(tmp, marked);
      if tmp.mark != 0 {
        return Marked;
      }
      KnownPointer(pointer);
      var found := Find(servs, pointer, this, servCells);
      if found != null {
        return Server;
      }
      QueueNode(tmp, q, names, marked);
      return Unseen;
    }

    // The neighbour loop of one popped node, heading for the outcome goal. The cursor
    // stays put when a node is queued.
    method ScanNeighbours(node: Node, q: MyQueue.Queue<Node>, ghost names0: seq<Name>, ghost marked0: set<Name>,
                          ghost goal: Option<Name>)
      returns (serv: Node?, ghost names: seq<Name>, ghost marked: set<Name>)
      requires DbValid() && node in Nodes()
      requires Queued(q, names0) && MarksAre(marked0) && forall c | c in q.cells :: c !in nodeCells
      requires forall x | x in Out(db.Graph(), node.name) :: x in Targets(db.Graph())
      requires goal == N.Visit(db.Graph(), db.Servers(), Out(db.Graph(), node.name), names0, marked0)
      modifies q, (set c | c in q.cells), Nodes()`mark
      ensures DbValid()
      ensures forall c | c in q.cells :: c in old(q.cells) || fresh(c)
      ensures goal == if serv != null then Some(serv.name) else N.Visit(db.Graph(), db.Servers(), [], names, marked)
      ensures serv == null ==>
                && Queued(q, names) && MarksAre(marked)
                && Progress(db.Graph(), names0, marked0, names, marked)
    {
      hide NodeOk, IsList, TableOk, PointersOk, Chain, DbValid, Queued, MarksAre, N.Visit, Progress, Targets;
      hide Out, Names, L.Db.Graph, L.Db.Servers, Scanning;
      serv, names, marked := null, names0, marked0;
      ghost var nbrs, out := node.nbrs, Names(node.nbrs);
      NodeNeighbours(node);
      var cur := node.neighbors;
      ghost var i := 0;
      ScanStarts(db, out, names0, marked0, goal);
      while cur != null
        invariant DbValid() && node in Nodes()
        invariant Queued(q, names) && MarksAre(marked)
        invariant forall c | c in q.cells :: c in old(q.cells) || fresh(c)
        invariant 0 <= i <= |nbrs| && cur == At(nbrs, i)
        invariant Scanning(db, out, i, names0, marked0, names, marked, goal)
        decreases |Targets(db.Graph()) - marked|, |nbrs| - i
      {
        NodeNeighbours(node);
        assert cur == nbrs[i];
        ScanStep(db, out, i, names0, marked0, names, marked, goal);
        var look := LookAt(cur.data, q, names, marked);
        if look == Marked {
          cur := cur.next;
          i := i + 1;
        } else if look == Server {
          serv := cur.data.data;
          return;
        } else {
          names, marked := names + [out[i]], marked + {out[i]};
        }
      }
      ScanEnds(db, out, names0, marked0, names, marked, goal);
    }

    lemma MarkTells(n: Node, marked: set<Name>)
      requires MarksAre(marked) && n in Nodes()
      ensures n.mark != 0 <==> n.name in marked
    {
    }

    lemma NodeNeighbours(node: Node)
      requires DbValid() && node in Nodes()
      ensures Chain(node, node.neighbors, node.nbrs)
      ensures Out(db.Graph(), node.name) == Names(node.nbrs)
      ensures forall x | x in Names(node.nbrs) :: x in Targets(db.Graph())
      ensures forall c | c in node.nbrs :: c.data in nodeCells && c.data.data in Nodes()
      ensures node.neighbors == At(node.nbrs, 0)
      ensures forall i {:trigger node.nbrs[i].next} | 0 <= i < |node.nbrs| :: node.nbrs[i].next == At(node.nbrs, i + 1)
      ensures Chain(this, servs, servCells)
    {
      assert NodeOk(node, nodeCells, db.recs);
    }

    // The body of calc_sp after the routing entry has been created.
    method Search(clit: Node) returns (serv: Node?)
      requires DbValid() && clit in Nodes()
      modifies Nodes()`mark
      ensures DbValid()
      ensures N.Choose(db.Graph(), db.Servers(), clit.name) == if serv == null then None else Some(serv.name)
    {
      hide NodeOk, TableOk, PointersOk, IsList, Chain, DbValid, Queued, MarksAre, N.Visit, Targets;
      ghost var g, servers := db.Graph(), db.Servers();
      ghost var goal := N.Choose(g, servers, clit.name);
      var q := StartSearch(clit);
      ghost var names, marked := [clit.name], {clit.name};
      serv := null;
      var empty := IsEmpty(q, names);
      while !empty
        invariant DbValid() && clit in Nodes()
        invariant fresh(q) && (forall c | c in q.cells :: fresh(c))
        invariant Queued(q, names) && MarksAre(marked) && serv == null
        invariant empty <==> names == []
        invariant goal == N.Visit(g, servers, [], names, marked)
        decreases |Targets(g) - marked|, |names|
      {
        serv, empty, names, marked := VisitNext(q, names, marked, goal);
        if serv != null {
          return;
        }
      }
      N.VisitEnds(g, servers, marked);
    }

    // One round of the outer loop: pops a node and scans its neighbours.
    method VisitNext(q: MyQueue.Queue<Node>, ghost names0: seq<Name>, ghost marked0: set<Name>,
                     ghost goal: Option<Name>)
      returns (serv: Node?, empty: bool, ghost names: seq<Name>, ghost marked: set<Name>)
      requires DbValid() && names0 != []
      requires Queued(q, names0) && MarksAre(marked0) && forall c | c in q.cells :: c !in nodeCells
      requires goal == N.Visit(db.Graph(), db.Servers(), [], names0, marked0)
      modifies q, (set c | c in q.cells), Nodes()`mark
      ensures DbValid()
      ensures forall c | c in q.cells :: c in old(q.cells) || fresh(c)
      ensures goal == if serv != null then Some(serv.name) else N.Visit(db.Graph(), db.Servers(), [], names, marked)
      ensures serv == null ==>
                && Queued(q, names) && MarksAre(marked)
                && Progress(db.Graph(), names0[1..], marked0, names, marked)
                && (empty <==> names == [])
    {
      hide NodeOk, TableOk, PointersOk, IsList, Chain, DbValid, Queued, MarksAre, N.Visit, Progress, Targets;
      N.VisitPops(db.Graph(), db.Servers(), names0, marked0);
      var node := PopNode(q, names0);
      serv, names, marked := ScanNeighbours(node, q, names0[1..], marked0, goal);
      empty := false;
      if serv == null {
        empty := IsEmpty(q, names);
      }
    }

    method IsEmpty(q: MyQueue.Queue<Node>, ghost names: seq<Name>) returns (empty: bool)
      requires Queued(q, names)
      ensures empty <==> names == []
    {
      empty := q.IsEmpty();
    }

    // Unmarks every node, then queues and marks the client.
    method StartSearch(clit: Node) returns (q: MyQueue.Queue<Node>)
      requires DbValid() && clit in Nodes()
      modifies Nodes()`mark
      ensures DbValid()
      ensures fresh(q) && (forall c | c in q.cells :: fresh(c))
      ensures Queued(q, [clit.name]) && MarksAre({clit.name})
    {
      hide NodeOk, TableOk, PointersOk, Chain, DbValid, MarksAre, IsList, Queued;
      TableList();
      UnmarkAll();
      assert Nodes() == old(Nodes());
      q := NewQueue();
      assert Nodes() == old(Nodes());
      QueueNode(clit, q, [], {});
      assert [] + [clit.name] == [clit.name] && {} + {clit.name} == {clit.name};
    }

    method NewQueue() returns (q: MyQueue.Queue<Node>)
      ensures fresh(q) && q.cells == [] && Queued(q, [])
    {
      q := new MyQueue.Queue<Node>();
      assert NodeNames(q.Contents()) == [];
    }

    method PopNode(q: MyQueue.Queue<Node>, ghost names: seq<Name>) returns (node: Node)
      requires DbValid() && Queued(q, names) && names != [] && forall c | c in q.cells :: c !in nodeCells
      modifies q, (set c | c in q.cells)
      ensures DbValid()
      ensures Queued(q, names[1..])
      ensures node in Nodes() && node.name == names[0]
      ensures forall c | c in q.cells :: c in old(q.cells)
    {
      hide NodeOk, IsList, TableOk, Chain, DbValid;
      var popped := q.PopHead();
      assert Nodes() == old(Nodes());
      assert DbValid();
      node := popped.value;
      assert node == old(q.Contents())[0];
    }

    // ---------------------------------------------------------------- routing table

    method AppendRoute(clit: Node) returns (entry: Route)
      requires RoutesValid()
      modifies this`routingTable, this`routeCells, this`table, (set c | c in routeCells)`next
      ensures RoutesValid()
      ensures table == old(table) + [(clit.name, None)] && |routeCells| == |old(routeCells)| + 1
      ensures routeCells[..|old(routeCells)|] == old(routeCells) && fresh(routeCells[|old(routeCells)|])
      ensures fresh(entry) && entry.clit == clit && entry.serv == null
      ensures LastRoute(entry)
    {
      hide IsList, Chain;
      entry := new Route(clit);
      ghost var c;
      ListIsChain(this, routingTable, routeCells);
      routingTable, c := Append(routingTable, entry, this, routeCells);
      routeCells := routeCells + [c];
      table := table + [(clit.name, None)];
    }

    // entry belongs to the last cell of the table and to no other.
    ghost predicate LastRoute(entry: Route)
      reads this`routeCells
    {
      && routeCells != []
      && routeCells[|routeCells| - 1].data == entry
      && forall i | 0 <= i < |routeCells| - 1 :: routeCells[i].data != entry
    }

    method FillRoute(entry: Route, serv: Node?)
      requires RoutesValid() && LastRoute(entry)
      modifies entry`serv, this`table
      ensures RoutesValid()
      ensures table == old(table)[..|old(table)| - 1]
                         + [(entry.clit.name, if serv == null then None else Some(serv.name))]
    {
      entry.serv := serv;
      table := table[..|table| - 1] + [(entry.clit.name, if serv == null then None else Some(serv.name))];
    }

    // calc_sp for one client: a new entry, a search, and the entry's server. The result
    // is false where the C code runs into its failing assertion.
    method CalcSp(data: Cell<Node>) returns (ok: bool)
      requires DbValid() && RoutesValid() && data in nodeCells
      modifies this`routingTable, this`routeCells, this`table, (set c | c in routeCells)`next, Nodes()`mark
      ensures DbValid() && RoutesValid()
      ensures table == old(table) + [(data.data.name, R.ServerFor(db, data.data.name))]
      ensures ok <==> R.ServerFor(db, data.data.name).Some?
      ensures |routeCells| == |old(routeCells)| + 1 && routeCells[..|old(routeCells)|] == old(routeCells)
      ensures fresh(routeCells[|old(routeCells)|])
    {
      hide NodeOk, TableOk, PointersOk, IsList, Chain, DbValid, RoutesValid, N.Choose;
      TableNode(data);
      var entry := AppendRoute(data.data);
      assert Nodes() == old(Nodes());
      assert DbValid();
      var serv := Search(data.data);
      FillRoute(entry, serv);
      assert Nodes() == old(Nodes());
      ok := serv != null;
    }

    lemma ClientList()
      requires DbValid()
      ensures clits == At(clitCells, 0) && |clitCells| == |db.clits|
      ensures forall i {:trigger clitCells[i].next} | 0 <= i < |clitCells| :: clitCells[i].next == At(clitCells, i + 1)
      ensures forall i | 0 <= i < |clitCells| ::
                clitCells[i].data in nodeCells && clitCells[i].data.data.name == db.clits[i]
    {
      assert forall c | c in clitCells :: c.data in nodeCells;
    }

    // The foreach over the client list; the first failing client ends the program.
    method CalcAll() returns (ok: bool)
      requires DbValid() && RoutesValid() && table == []
      modifies this`routingTable, this`routeCells, this`table, (set c | c in routeCells)`next, Nodes()`mark
      ensures DbValid() && RoutesValid()
      ensures ok <==> R.Ready(db)
      ensures ok ==> table == R.Routes(db, db.clits)
    {
      hide NodeOk, TableOk, PointersOk, IsList, Chain, DbValid, RoutesValid, R.ServerFor;
      ClientList();
      var cur := clits;
      ghost var i := 0;
      while cur != null
        invariant DbValid() && RoutesValid()
        invariant 0 <= i <= |clitCells| && cur == At(clitCells, i)
        invariant table == R.Routes(db, db.clits[..i])
        invariant forall j | 0 <= j < i :: R.ServerFor(db, db.clits[j]).Some?
        invariant forall c | c in routeCells :: c in old(routeCells) || fresh(c)
        decreases |clitCells| - i
      {
        ClientList();
        RoutesStep(db, i);
        ghost var before := routeCells;
        var next := cur.next;
        var done := CalcSp(cur.data);
        assert routeCells == before + [routeCells[|before|]];
        if !done {
          assert db.clits[i] in db.clits;
          return false;
        }
        cur := next;
        i := i + 1;
      }
      assert db.clits[..i] == db.clits;
      return true;
    }

    // Start-up. In round-robin mode only the server list is read.
    method OspfInit(servers: seq<Name>, log: seq<L.Lsa>, rrFlag: bool) returns (ok: bool)
      requires DbValid() && RoutesValid() && db == L.EMPTY && table == []
      modifies this, Repr, (set c | c in routeCells)
      ensures DbValid() && RoutesValid() && fresh(Repr - old(Repr))
      ensures rrFlag ==> ok && db == L.AddServers(L.EMPTY, servers) && table == []
      ensures !rrFlag ==> db == L.Boot(servers, log)
      ensures !rrFlag ==> (ok <==> R.Ready(db))
      ensures !rrFlag && ok ==> table == R.Routes(db, db.clits)
      ensures queryCount == old(queryCount)
    {
      hide DbValid, L.AddServers, L.AddLog, R.Ready, R.Routes, IsList;
      assert routeCells == [];
      ParseServs(servers);
      if rrFlag {
        return true;
      }
      ParseLsa(log);
      OwnedParts();
      ok := CalcAll();
    }

    // The address for one query; None stands for the crash on an unknown client, or on
    // an empty server list in round-robin mode.
    method Route(clitName: Name, rrFlag: bool) returns (r: Option<Name>)
      requires DbValid() && RoutesValid()
      modifies this`queryCount
      ensures DbValid() && RoutesValid()
      ensures !rrFlag ==> r == R.Lookup(table, clitName) && queryCount == old(queryCount)
      ensures rrFlag ==> r == R.Turn(db.order, old(queryCount))
      ensures rrFlag ==> queryCount == if r.Some? then R.NextCount(old(queryCount)) else old(queryCount)
    {
      hide NodeOk, TableOk, PointersOk, IsList;
      if rrFlag {
        r := NextTurn();
        assert Nodes() == old(Nodes());
      } else {
        r := FindRoute(clitName);
      }
    }

    method NextTurn() returns (r: Option<Name>)
      requires DbValid()
      modifies this`queryCount
      ensures r == R.Turn(db.order, old(queryCount))
      ensures queryCount == if r.Some? then R.NextCount(old(queryCount)) else old(queryCount)
    {
      hide NodeOk, PointersOk;
      var size := Length(nodes, this, nodeCells);
      if size == 0 {
        return None;
      }
      var node := GetData(nodes, queryCount % size, this, nodeCells);
      r := Some(node.value.name);
      queryCount := R.NextCount(queryCount);
    }

    method FindRoute(clitName: Name) returns (r: Option<Name>)
      requires RoutesValid()
      ensures r == R.Lookup(table, clitName)
    {
      var list, at := FindCustom(routingTable, (e: Route) => e.clit.name == clitName, this, routeCells);
      assert forall j | 0 <= j < |table| :: table[j].0 == routeCells[j].data.clit.name;
      LookupAt(table, clitName, at);
      if list == null {
        return None;
      }
      assert list.data == routeCells[at].data;
      return if list.data.serv == null then None else Some(list.data.serv.name);
    }

    lemma OwnedParts()
      requires DbValid()
      ensures forall c | c in nodeCells :: c in Repr
      ensures forall c | c in servCells :: c in Repr
      ensures forall c | c in clitCells :: c in Repr
      ensures forall n | n in Nodes() :: n in Repr
      ensures forall n, c | n in Nodes() && c in n.nbrs :: c in Repr
    {
    }
  }

  lemma RoutesStep(db: L.Db, i: nat)
    requires i < |db.clits|
    ensures R.Routes(db, db.clits[..i + 1])
         == R.Routes(db, db.clits[..i]) + [(db.clits[i], R.ServerFor(db, db.clits[i]))]
  {
  }

  lemma {:induction false} LookupAt(table: seq<(Name, Option<Name>)>, c: Name, at: nat)
    requires at <= |table| && forall j | 0 <= j < at :: table[j].0 != c
    requires at < |table| ==> table[at].0 == c
    ensures R.Lookup(table, c) == if at < |table| then table[at].1 else None
    decreases at
  {
    if at > 0 {
      LookupAt(table[1..], c, at - 1);
    }
  }

  lemma NeighborsStep(db: L.Db, owner: Name, names: seq<Name>, i: nat)
    requires i < |names| && owner in db.recs
    ensures L.AddNeighbors(db, owner, names[..i + 1])
         == L.AddNeighbor(L.AddNeighbors(db, owner, names[..i]), owner, names[i])
  {
    assert names[..i + 1][..i] == names[..i];
  }

  lemma NodeThenNeighbor(db: L.Db, owner: Name, n: Name)
    requires owner in db.recs
    ensures L.AddNeighbor(L.AddNode(db, n), owner, n) == L.AddNeighbor(db, owner, n)
  {
  }

  lemma ServersStep(db: L.Db, names: seq<Name>, i: nat)
    requires i < |names|
    ensures L.AddServers(db, names[..i + 1]) == L.AddServer(L.AddServers(db, names[..i]), names[i])
  {
    assert names[..i + 1][..i] == names[..i];
  }

  lemma NodeParts(n: Node, table: seq<Cell<Node>>, recs: map<Name, L.Rec>)
    requires NodeOk(n, table, recs)
    ensures IsList(n, n.neighbors, n.nbrs) && forall c | c in n.nbrs :: c.data in table
    ensures n.name in recs && recs[n.name] == L.Rec(n.seqNum, Names(n.nbrs))
  {
  }

  lemma NodeFromParts(n: Node, table: seq<Cell<Node>>, recs: map<Name, L.Rec>)
    requires IsList(n, n.neighbors, n.nbrs) && forall c | c in n.nbrs :: c.data in table
    requires n.name in recs && recs[n.name] == L.Rec(n.seqNum, Names(n.nbrs))
    ensures NodeOk(n, table, recs)
  {
  }

  lemma NamesGrow(cells: seq<Cell<Cell<Node>>>, c: Cell<Cell<Node>>)
    ensures Names(cells + [c]) == Names(cells) + [c.data.data.name]
  {
  }

  lemma BareNodeOk(n: Node, table: seq<Cell<Node>>, recs: map<Name, L.Rec>)
    requires n.neighbors == null && n.nbrs == []
    requires n.name in recs && recs[n.name] == L.Rec(n.seqNum, [])
    ensures NodeOk(n, table, recs)
  {
  }

  lemma SameTable(table: seq<Cell<Node>>, db: L.Db, db': L.Db)
    requires TableOk(table, db) && db'.order == db.order && db'.recs.Keys == db.recs.Keys
    ensures TableOk(table, db')
  {
  }

  lemma GrownNodes(table: seq<Cell<Node>>, c: Cell<Node>)
    ensures NodesOf(table + [c]) == NodesOf(table) + {c.data}
  {
    assert c in table + [c];
    forall d | d in table
      ensures d in table + [c]
    {
    }
  }

  lemma GrownTable(table: seq<Cell<Node>>, c: Cell<Node>, db: L.Db, name: Name)
    requires TableOk(table, db) && name !in db.recs && c.data.name == name
    ensures TableOk(table + [c], L.AddNode(db, name))
  {
  }

  lemma PointersOkGrows(cells: seq<Cell<Cell<Node>>>, table: seq<Cell<Node>>, table': seq<Cell<Node>>, names: seq<Name>)
    requires PointersOk(cells, table, names)
    requires forall c | c in table :: c in table'
    ensures PointersOk(cells, table', names)
  {
  }

  lemma NodeOkGrows(n: Node, table: seq<Cell<Node>>, recs: map<Name, L.Rec>,
                    table': seq<Cell<Node>>, recs': map<Name, L.Rec>)
    requires NodeOk(n, table, recs)
    requires forall c | c in table :: c in table'
    requires n.name in recs ==> n.name in recs' && recs'[n.name] == recs[n.name]
    ensures NodeOk(n, table', recs')
  {
  }
}
