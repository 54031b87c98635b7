/** Completion of features. */
module FeatureGate {
  import opened Sequences
  import opened PacketStates
  import opened Database

  function FeaturePackets(packets: map<Id, Packet>, f: Id): set<Id> {
    set p | p in packets && packets[p].featureId == f
  }

  /** The feature has packets and every one of them is MERGED or CANCELLED. */
  predicate AllPacketsDone(packets: map<Id, Packet>, f: Id) {
    FeaturePackets(packets, f) != {} && forall p :: p in FeaturePackets(packets, f) ==> IsDone(packets[p].state)
  }

  /** Some packet belongs to the feature, and every packet that does is MERGED or CANCELLED. */
  predicate IsFinished(packets: map<Id, Packet>, f: Id) {
    && (exists p :: p in packets && packets[p].featureId == f)
    && forall p :: p in packets && packets[p].featureId == f ==> packets[p].state in {Merged, Cancelled}
  }

  lemma FinishedExact(packets: map<Id, Packet>)
    ensures forall f :: AllPacketsDone(packets, f) <==> IsFinished(packets, f)
  {
    forall f ensures AllPacketsDone(packets, f) <==> IsFinished(packets, f) {
      if p :| p in packets && packets[p].featureId == f {
        assert p in FeaturePackets(packets, f);
      }
    }
  }

  function Uncompleted(features: map<Id, Feature>): set<Id> {
    set f | f in features && features[f].status != "COMPLETED"
  }

  /** The features this pass completes. */
  function Completable(packets: map<Id, Packet>, features: map<Id, Feature>): set<Id> {
    set f | f in Uncompleted(features) && AllPacketsDone(packets, f)
  }

  function CompletedNow(features: map<Id, Feature>, ids: set<Id>): map<Id, Feature> {
    map f | f in features :: if f in ids then features[f].(status := "COMPLETED") else features[f]
  }

  function CompleteFeatures(db: Rows): Rows {
    db.(features := CompletedNow(db.features, Completable(db.packets, db.features)))
  }

  method CheckFeatureCompletion(db: Store) returns (completed: nat)
    modifies db`features
    ensures db.features == CompletedNow(old(db.features), Completable(db.packets, old(db.features)))
    ensures
      var was := old(db.features);
      completed == |set f | f in was && was[f].status != "COMPLETED" && IsFinished(db.packets, f)|
    ensures db.features.Keys == old(db.features).Keys
    ensures forall f :: f in db.features ==>
      db.features[f] ==
        if IsFinished(db.packets, f) then old(db.features)[f].(status := "COMPLETED") else old(db.features)[f]
  {
    FinishedExact(db.packets);
    ghost var before := db.features;
    ghost var completable := Completable(db.packets, before);
    ghost var packets := db.packets;
    var todo := Uncompleted(db.features);
    ghost var done: set<Id> := {};
    completed := 0;
    assert CompletedNow(before, {}) == before;
    while todo != {}
      invariant todo <= before.Keys && done !! todo && done <= completable <= done + todo
      invariant todo <= Uncompleted(before) && db.packets == packets
      invariant db.features == CompletedNow(before, done) && completed == |done|
      decreases todo
    {
      var f :| f in todo;
      var hit := CompleteIfDone(db, f);
      assert hit <==> f in completable;
      if hit {
        CompletedMore(before, done, f);
        AddOne(done, f);
        completed, done := completed + 1, done + {f};
      }
      todo := todo - {f};
    }
    assert done == completable;
    assert completable == set f | f in before && before[f].status != "COMPLETED" && IsFinished(packets, f);
  }

  /** One round of the loop over the features that are not completed. */
  method CompleteIfDone(db: Store, f: Id) returns (completed: bool)
    requires f in db.features
    modifies db`features
    ensures completed <==> AllPacketsDone(db.packets, f)
    ensures db.packets == old(db.packets)
    ensures db.features ==
      if completed then old(db.features)[f := old(db.features)[f].(status := "COMPLETED")] else old(db.features)
  {
    completed := AllPacketsDone(db.packets, f);
    if completed {
      db.features := db.features[f := db.features[f].(status := "COMPLETED")];
    }
  }

  lemma CompletedMore(features: map<Id, Feature>, ids: set<Id>, f: Id)
    requires f in features && f !in ids
    ensures CompletedNow(features, ids + {f}) == CompletedNow(features, ids)[f := features[f].(status := "COMPLETED")]
  {
  }
}
