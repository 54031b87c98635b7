/** The tables that the background loops share. */
module Database {
  import opened Sequences
  import opened PacketStates

  type Id = string

  datatype Packet = Packet(featureId: Id, waveId: Id, state: PacketState, attemptCount: int, maxAttempts: int)

  datatype Lease = Lease(workerId: Id, expiresAt: int)

  datatype Worker = Worker(status: string, currentPacketId: Option<Id>, lastHeartbeat: Option<int>)

  datatype Wave = Wave(id: Id, status: string)

  /** `degradedReason` keeps the wave and the packet count that the reason text is built from. */
  datatype Feature = Feature(status: string, degradedReason: Option<(Id, nat)>)

  /**
   * The rows at one moment. Leases are keyed by packet, since the schema allows one lease per packet;
   * `waves` holds the waves of each feature in wave order.
   */
  datatype Rows = Rows(packets: map<Id, Packet>, leases: map<Id, Lease>, workers: map<Id, Worker>,
                       features: map<Id, Feature>, waves: map<Id, seq<Wave>>)

  class Store {
    var packets: map<Id, Packet>
    var leases: map<Id, Lease>
    var workers: map<Id, Worker>
    var features: map<Id, Feature>
    var waves: map<Id, seq<Wave>>

    ghost function Now(): Rows
      reads this
    {
      Rows(packets, leases, workers, features, waves)
    }

    method SetPacketState(id: Id, state: PacketState)
      requires id in packets
      modifies this`packets
      ensures packets == old(packets)[id := old(packets)[id].(state := state)]
    {
      packets := packets[id := packets[id].(state := state)];
    }

    /** Clears the packet reference of a worker, if there is such a worker. */
    method ClearWorker(id: Id)
      modifies this`workers
      ensures workers == Freed(old(workers), id)
    {
      if id in workers {
        workers := workers[id := workers[id].(currentPacketId := None)];
      }
    }

    method DeleteLease(packetId: Id)
      modifies this`leases
      ensures leases == old(leases) - {packetId}
    {
      leases := leases - {packetId};
    }
  }

  /** The workers with the packet references of `ids` cleared. */
  function Cleared(workers: map<Id, Worker>, ids: set<Id>): map<Id, Worker> {
    map w | w in workers :: if w in ids then workers[w].(currentPacketId := None) else workers[w]
  }

  /** The workers with the packet reference of one of them cleared, if it exists. */
  function Freed(workers: map<Id, Worker>, id: Id): map<Id, Worker> {
    if id in workers then workers[id := workers[id].(currentPacketId := None)] else workers
  }

  lemma FreedMore(workers: map<Id, Worker>, ids: set<Id>, id: Id)
    ensures Freed(Cleared(workers, ids), id) == Cleared(workers, ids + {id})
  {
  }

  /** The packets with the state of `ids` overwritten. */
  function WithState(packets: map<Id, Packet>, ids: set<Id>, state: PacketState): map<Id, Packet> {
    map p | p in packets :: if p in ids then packets[p].(state := state) else packets[p]
  }

  /** The workers that hold the leases of `ids`. */
  function Holders(leases: map<Id, Lease>, ids: set<Id>): set<Id> {
    set p | p in ids && p in leases :: leases[p].workerId
  }

  lemma ClearedMore(workers: map<Id, Worker>, a: set<Id>, b: set<Id>)
    ensures Cleared(Cleared(workers, a), b) == Cleared(workers, a + b)
  {
  }

  function RunningAmong(packets: map<Id, Packet>, ids: set<Id>): set<Id> {
    set p | p in ids && p in packets && packets[p].state == Running
  }

  /** Drops the leases of `ids`: their RUNNING packets return to READY and their workers are freed. */
  function Reclaim(db: Rows, ids: set<Id>): Rows {
    db.(packets := WithState(db.packets, RunningAmong(db.packets, ids), Ready),
        leases := db.leases - ids,
        workers := Cleared(db.workers, Holders(db.leases, ids)))
  }

  /**
   * Row by row: the RUNNING packets among `ids` are READY, the leases of `ids` are gone, a worker that held
   * one of them names no packet, and everything else is as before.
   */
  ghost predicate IsReclaimed(before: Rows, ids: set<Id>, after: Rows) {
    && after.packets.Keys == before.packets.Keys
    && (forall p :: p in before.packets ==>
          after.packets[p] ==
            if p in ids && before.packets[p].state == Running then before.packets[p].(state := Ready)
            else before.packets[p])
    && (forall p :: p in after.leases <==> p in before.leases && p !in ids)
    && (forall p :: p in after.leases ==> after.leases[p] == before.leases[p])
    && after.workers.Keys == before.workers.Keys
    && (forall w :: w in before.workers ==>
          after.workers[w] ==
            if exists p :: p in ids && p in before.leases && before.leases[p].workerId == w
            then before.workers[w].(currentPacketId := None) else before.workers[w])
    && after.features == before.features && after.waves == before.waves
  }

  lemma ReclaimByRow(db: Rows, ids: set<Id>)
    ensures IsReclaimed(db, ids, Reclaim(db, ids))
  {
  }

  /** Reclaiming in two goes is reclaiming once. */
  lemma ReclaimMore(db: Rows, a: set<Id>, b: set<Id>)
    ensures Reclaim(Reclaim(db, a), b) == Reclaim(db, a + b)
  {
    var mid := Reclaim(db, a);
    assert Holders(db.leases, a) + Holders(mid.leases, b) == Holders(db.leases, a + b) by {
      forall w | w in Holders(db.leases, a + b) ensures w in Holders(db.leases, a) + Holders(mid.leases, b) {
        var p :| p in a + b && p in db.leases && db.leases[p].workerId == w;
        assert p in a || p in mid.leases;
      }
    }
    ClearedMore(db.workers, Holders(db.leases, a), Holders(mid.leases, b));
    assert mid.leases - b == db.leases - (a + b);
    assert Reclaim(mid, b).packets == Reclaim(db, a + b).packets;
  }

  lemma ReclaimNone(db: Rows)
    ensures Reclaim(db, {}) == db
  {
    assert Cleared(db.workers, Holders(db.leases, {})) == db.workers;
    assert WithState(db.packets, RunningAmong(db.packets, {}), Ready) == db.packets;
    assert db.leases - {} == db.leases;
  }

  /** Reclaiming other packets leaves a packet and its lease alone. */
  lemma ReclaimElsewhere(db: Rows, ids: set<Id>, p: Id)
    requires p !in ids
    ensures p in Reclaim(db, ids).packets <==> p in db.packets
    ensures p in db.packets ==> Reclaim(db, ids).packets[p] == db.packets[p]
    ensures p in Reclaim(db, ids).leases <==> p in db.leases
    ensures p in db.leases ==> Reclaim(db, ids).leases[p] == db.leases[p]
  {
  }

  lemma ClearedElsewhere(workers: map<Id, Worker>, ids: set<Id>, w: Id)
    requires w in workers && w !in ids
    ensures w in Cleared(workers, ids) && Cleared(workers, ids)[w] == workers[w]
  {
  }
}
