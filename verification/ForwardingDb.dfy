/** The forwarding database of the learning switch. */
module ForwardingDb {
  import opened Common

  /** An address as the number its octets make up; the map orders its keys by it. */
  type Mac = nat

  const LIFETIME := 30

  datatype Entry = Entry(port: int, agingTime: int)

  // -------------------------------------------------------------------------------------
  // The database as a map
  // -------------------------------------------------------------------------------------

  function Learned(db: map<Mac, Entry>, mac: Mac, port: int, now: int): map<Mac, Entry> {
    db[mac := Entry(port, now + LIFETIME)]
  }

  predicate Expired(e: Entry, now: int) {
    e.agingTime <= now
  }

  function Swept(db: map<Mac, Entry>, now: int): map<Mac, Entry> {
    map mac | mac in db && !Expired(db[mac], now) :: db[mac]
  }

  // -------------------------------------------------------------------------------------
  // The database and its history
  // -------------------------------------------------------------------------------------

  datatype Event = Learn(mac: Mac, port: int, time: int) | Sweep(time: int)

  function After(history: seq<Event>): map<Mac, Entry> {
    if history == [] then map[]
    else
      var before := After(history[..|history| - 1]);
      match history[|history| - 1]
      case Learn(mac, port, time) => Learned(before, mac, port, time)
      case Sweep(time) => Swept(before, time)
  }

  /** Event i is the last learn of mac, it said port, and no sweep after it ran 30 seconds later or more. */
  ghost predicate StillKnown(history: seq<Event>, i: nat, mac: Mac, port: int) {
    && i < |history| && history[i].Learn? && history[i].mac == mac && history[i].port == port
    && forall j :: i < j < |history| ==> Spares(history[j], mac, history[i].time)
  }

  ghost predicate Known(history: seq<Event>, mac: Mac, port: int) {
    exists i: nat :: StillKnown(history, i, mac, port)
  }

  /** An event that neither learns mac anew nor sweeps away what was learnt of it at the given time. */
  predicate Spares(e: Event, mac: Mac, time: int) {
    match e
    case Learn(m, _, _) => m != mac
    case Sweep(now) => now < time + 30
  }

  /**
   * For every history of learns and sweeps, whatever the clock: the database gives port p for an
   * address if and only if its last learn said p and no later sweep ran at or after that
   * learn's time plus 30 seconds.
   */
  lemma {:induction false} KnownIffLastLearnSurvives(history: seq<Event>, mac: Mac, port: int)
    ensures mac in After(history) && After(history)[mac].port == port <==> Known(history, mac, port)
    ensures forall i: nat :: StillKnown(history, i, mac, port) ==>
              mac in After(history) && After(history)[mac] == Entry(port, history[i].time + 30)
    decreases |history|
  {
    if history != [] {
      var n := |history| - 1;
      var before, last := history[..n], history[n];
      KnownIffLastLearnSurvives(before, mac, port);
      forall i: nat | StillKnown(history, i, mac, port)
        ensures mac in After(history) && After(history)[mac] == Entry(port, history[i].time + 30) {
        if i < n {
          assert StillKnown(before, i, mac, port);
          assert Spares(last, mac, history[i].time);
        }
      }
      if mac in After(history) && After(history)[mac].port == port {
        if last.Learn? && last.mac == mac {
          assert StillKnown(history, n, mac, port);
        } else {
          var i: nat :| StillKnown(before, i, mac, port);
          assert StillKnown(history, i, mac, port);
        }
      }
    }
  }

  // -------------------------------------------------------------------------------------
  // The ordered map, in place
  // -------------------------------------------------------------------------------------

  datatype Node = Node(key: Mac, entry: Entry)

  predicate Ordered(nodes: seq<Node>) {
    forall i, j :: 0 <= i < j < |nodes| ==> nodes[i].key < nodes[j].key
  }

  ghost predicate IsMap(nodes: seq<Node>, db: map<Mac, Entry>) {
    && (forall i :: 0 <= i < |nodes| ==> nodes[i].key in db && db[nodes[i].key] == nodes[i].entry)
    && (forall mac :: mac in db ==> HasKey(nodes, mac))
  }

  ghost predicate HasKey(nodes: seq<Node>, mac: Mac) {
    exists i :: 0 <= i < |nodes| && nodes[i].key == mac
  }

  lemma OverwrittenIsMap(nodes: seq<Node>, db: map<Mac, Entry>, k: nat, entry: Entry)
    requires Ordered(nodes) && IsMap(nodes, db) && k < |nodes|
    ensures var mac := nodes[k].key;
            Ordered(nodes[k := Node(mac, entry)]) && IsMap(nodes[k := Node(mac, entry)], db[mac := entry])
  {
    var mac := nodes[k].key;
    var nodes', db' := nodes[k := Node(mac, entry)], db[mac := entry];
    forall m | m in db' ensures HasKey(nodes', m) {
      assert HasKey(nodes, m);
      var i :| 0 <= i < |nodes| && nodes[i].key == m;
      assert nodes'[i].key == m;
    }
  }

  function InsertAt(nodes: seq<Node>, k: nat, node: Node): seq<Node>
    requires k <= |nodes|
  {
    nodes[..k] + [node] + nodes[k..]
  }

  lemma InsertedNodes(nodes: seq<Node>, k: nat, node: Node)
    requires k <= |nodes|
    ensures var nodes' := InsertAt(nodes, k, node);
            && |nodes'| == |nodes| + 1
            && forall i :: 0 <= i < |nodes'| ==>
                 nodes'[i] == if i == k then node else nodes[if i < k then i else i - 1]
  {
  }

  lemma InsertedIsOrdered(nodes: seq<Node>, k: nat, node: Node)
    requires Ordered(nodes) && k <= |nodes|
    requires forall i :: 0 <= i < k ==> nodes[i].key < node.key
    requires forall i :: k <= i < |nodes| ==> nodes[i].key > node.key
    ensures Ordered(InsertAt(nodes, k, node))
  {
    InsertedNodes(nodes, k, node);
    hide InsertAt;
  }

  lemma InsertedIsMap(nodes: seq<Node>, db: map<Mac, Entry>, k: nat, mac: Mac, entry: Entry)
    requires Ordered(nodes) && IsMap(nodes, db) && k <= |nodes|
    requires forall i :: 0 <= i < k ==> nodes[i].key < mac
    requires forall i :: k <= i < |nodes| ==> nodes[i].key > mac
    ensures var nodes' := InsertAt(nodes, k, Node(mac, entry));
            Ordered(nodes') && IsMap(nodes', db[mac := entry])
  {
    InsertedNodes(nodes, k, Node(mac, entry));
    InsertedIsOrdered(nodes, k, Node(mac, entry));
    hide InsertAt, Ordered;
    var nodes' := InsertAt(nodes, k, Node(mac, entry));
    var db' := db[mac := entry];
    forall m | m in db' ensures HasKey(nodes', m) {
      if m == mac {
        assert nodes'[k].key == m;
      } else {
        assert HasKey(nodes, m);
        var i :| 0 <= i < |nodes| && nodes[i].key == m;
        assert nodes'[if i < k then i else i + 1].key == m;
      }
    }
  }

  lemma ErasedIsMap(nodes: seq<Node>, db: map<Mac, Entry>, k: nat)
    requires Ordered(nodes) && IsMap(nodes, db) && k < |nodes|
    ensures var nodes' := nodes[..k] + nodes[k + 1..];
            Ordered(nodes') && IsMap(nodes', db - {nodes[k].key})
  {
    var nodes', db' := nodes[..k] + nodes[k + 1..], db - {nodes[k].key};
    forall i | 0 <= i < |nodes'| ensures nodes'[i] == nodes[if i < k then i else i + 1] {
    }
    forall m | m in db' ensures HasKey(nodes', m) {
      assert HasKey(nodes, m);
      var i :| 0 <= i < |nodes| && nodes[i].key == m;
      assert nodes'[if i < k then i else i - 1].key == m;
    }
  }

  /** Erasing an expired entry is part of the sweep. */
  lemma ErasedIsSwept(db: map<Mac, Entry>, mac: Mac, now: int)
    requires mac in db && Expired(db[mac], now)
    ensures Swept(db - {mac}, now) == Swept(db, now)
  {
  }

  lemma NothingLeftToErase(nodes: seq<Node>, db: map<Mac, Entry>, now: int)
    requires IsMap(nodes, db)
    requires forall i :: 0 <= i < |nodes| ==> !Expired(nodes[i].entry, now)
    ensures Swept(db, now) == db
  {
    forall mac | mac in db ensures !Expired(db[mac], now) {
      assert HasKey(nodes, mac);
      var i :| 0 <= i < |nodes| && nodes[i].key == mac;
    }
  }

  class Database {
    /** The nodes of the ordered map, in the order in which they are iterated over. */
    var fdb: seq<Node>
    ghost var contents: map<Mac, Entry>
    ghost var history: seq<Event>

    constructor ()
      ensures Valid() && contents == map[] && history == []
    {
      fdb, contents, history := [], map[], [];
    }

    ghost predicate Valid()
      reads this
    {
      Ordered(fdb) && IsMap(fdb, contents) && contents == After(history)
    }

    /** The first position whose key is not less than mac. */
    method LowerBound(mac: Mac) returns (k: nat)
      requires Ordered(fdb)
      ensures k <= |fdb|
      ensures forall i :: 0 <= i < k ==> fdb[i].key < mac
      ensures forall i :: k <= i < |fdb| ==> fdb[i].key >= mac
    {
      k := 0;
      while k < |fdb| && fdb[k].key < mac
        invariant k <= |fdb|
        invariant forall i :: 0 <= i < k ==> fdb[i].key < mac
      {
        k := k + 1;
      }
    }

    /** Enter an address, or overwrite what is known of it. */
    method Learn(mac: Mac, port: int, now: int)
      requires Valid()
      modifies this
      ensures Valid() && contents == Learned(old(contents), mac, port, now)
      ensures history == old(history) + [Event.Learn(mac, port, now)]
    {
      history := history + [Event.Learn(mac, port, now)];
      assert history[..|history| - 1] == old(history);
      Put(mac, Entry(port, now + LIFETIME));
    }

    method Put(mac: Mac, entry: Entry)
      requires Ordered(fdb) && IsMap(fdb, contents)
      modifies this`fdb, this`contents
      ensures Ordered(fdb) && IsMap(fdb, contents) && contents == old(contents)[mac := entry]
    {
      var k := LowerBound(mac);
      if k < |fdb| && fdb[k].key == mac {
        OverwrittenIsMap(fdb, contents, k, entry);
        fdb := fdb[k := Node(mac, entry)];
      } else {
        InsertedIsMap(fdb, contents, k, mac, entry);
        hide InsertAt;
        fdb := InsertAt(fdb, k, Node(mac, entry));
      }
      hide IsMap, Ordered;
      contents := contents[mac := entry];
    }

    method Get(mac: Mac) returns (port: Option<int>)
      requires Valid()
      ensures forall p :: Known(history, mac, p) <==> port == Some(p)
    {
      forall p ensures Known(history, mac, p) <==> mac in contents && contents[mac].port == p {
        KnownIffLastLearnSurvives(history, mac, p);
      }
      hide Known, After;
      var k := LowerBound(mac);
      assert mac in contents ==> HasKey(fdb, mac);
      if k < |fdb| && fdb[k].key == mac {
        return Some(fdb[k].entry.port);
      }
      return None;
    }

    method AgeOut(now: int)
      requires Valid()
      modifies this
      ensures Valid() && contents == Swept(old(contents), now)
      ensures history == old(history) + [Sweep(now)]
    {
      EraseExpired(now);
      history := history + [Sweep(now)];
      assert history[..|history| - 1] == old(history);
    }

    /** Erase the expired entries while iterating; erasing yields the position of the next node. */
    method EraseExpired(now: int)
      requires Ordered(fdb) && IsMap(fdb, contents)
      modifies this`fdb, this`contents
      ensures Ordered(fdb) && IsMap(fdb, contents) && contents == Swept(old(contents), now)
    {
      var it := 0;
      while it != |fdb|
        invariant 0 <= it <= |fdb| && Ordered(fdb) && IsMap(fdb, contents)
        invariant forall i :: 0 <= i < it ==> !Expired(fdb[i].entry, now)
        invariant Swept(contents, now) == Swept(old(contents), now)
        decreases |fdb| - it
      {
        if Expired(fdb[it].entry, now) {
          ErasedIsMap(fdb, contents, it);
          ErasedIsSwept(contents, fdb[it].key, now);
          hide IsMap, Ordered, Swept;
          contents := contents - {fdb[it].key};
          fdb := fdb[..it] + fdb[it + 1..];
        } else {
          it := it + 1;
        }
      }
      NothingLeftToErase(fdb, contents, now);
    }
  }
}
