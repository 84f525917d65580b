/**
 * The pub-sub hub: for each topic, the set of receivers subscribed to it, with a record of
 * the topics that gain their first receiver or lose their last one.
 */
module PubSubHub {
  import opened SeqUtil

  /** A receiver: its identity (a pointer in the source) and the topic it listens on. */
  datatype Receiver = Receiver(id: nat, topic: string)

  /** A change in the set of topics with receivers. */
  datatype BroadcastingChange = BroadcastingChange(added: seq<string>, removed: seq<string>)

  type Receivers = map<string, set<Receiver>>

  /** Every topic present has at least one receiver, and each receiver is filed under its own topic. */
  predicate WellFiled(m: Receivers)
  {
    forall t :: t in m ==> m[t] != {} && forall r :: r in m[t] ==> r.topic == t
  }

  /** The receivers with the ones in `gone` taken out; a topic left without receivers disappears. */
  function Without(m: Receivers, gone: set<Receiver>): (m': Receivers)
    ensures forall t :: t in m' <==> t in m && m[t] - gone != {}
    ensures forall t :: t in m' ==> m'[t] == m[t] - gone
  {
    map t | t in m && m[t] - gone != {} :: m[t] - gone
  }

  /** Takes one receiver out of its topic, deleting the topic when it was the last one. */
  function Drop(m: Receivers, r: Receiver): Receivers
    requires r.topic in m
  {
    var left := m[r.topic] - {r};
    if left == {} then m - {r.topic} else m[r.topic := left]
  }

  /**
   * `unsubscribe`, receiver by receiver: one whose topic is gone is skipped; otherwise it is
   * taken out of its topic, the topic is reported as removed when that empties it, and the
   * receiver is cancelled. The result is the new map, the removed topics in order and the
   * cancelled receivers.
   */
  function Unsubscribed(m: Receivers, rs: seq<Receiver>): (Receivers, seq<string>, set<nat>)
    decreases |rs|
  {
    if rs == [] then (m, [], {})
    else if rs[0].topic !in m then Unsubscribed(m, rs[1..])
    else
      var m' := Drop(m, rs[0]);
      var rest := Unsubscribed(m', rs[1..]);
      (rest.0, (if rs[0].topic in m' then [] else [rs[0].topic]) + rest.1, {rs[0].id} + rest.2)
  }

  lemma DropFiled(m: Receivers, r: Receiver)
    requires WellFiled(m) && r.topic in m
    ensures WellFiled(Drop(m, r))
    ensures forall t :: t in Drop(m, r) ==> t in m && Drop(m, r)[t] == m[t] - {r}
  {
    var d := Drop(m, r);
    forall t | t in d
      ensures t in m && d[t] == m[t] - {r}
    {
      if t != r.topic {
        assert r !in m[t];
        assert m[t] - {r} == m[t];
      }
    }
  }

  lemma DropWithout(m: Receivers, r: Receiver, gone: set<Receiver>)
    requires WellFiled(m) && r.topic in m
    ensures WellFiled(Drop(m, r)) && Without(Drop(m, r), gone) == Without(m, {r} + gone)
  {
    DropFiled(m, r);
    var d := Drop(m, r);
    var a := Without(d, gone);
    var b := Without(m, {r} + gone);
    forall t | t in m
      ensures m[t] - ({r} + gone) == (if t in d then d[t] - gone else {})
    {
      if t in d {
        assert m[t] - ({r} + gone) == (m[t] - {r}) - gone;
      } else {
        assert m[t] - {r} == {};
      }
    }
    forall t
      ensures t in a <==> t in b
    {
      if t in a {
        assert t in d && t in m;
      }
    }
    assert a == b;
  }

  /** Taking out no receivers leaves the map as it is. */
  lemma WithoutNothing(m: Receivers)
    requires WellFiled(m)
    ensures Without(m, {}) == m
  {
    forall t | t in m
      ensures m[t] - {} == m[t]
    {
    }
  }

  /** Taking out a receiver whose topic has no receivers changes nothing. */
  lemma WithoutAbsent(m: Receivers, r: Receiver, gone: set<Receiver>)
    requires WellFiled(m) && r.topic !in m
    ensures Without(m, {r} + gone) == Without(m, gone)
  {
    forall t | t in m
      ensures m[t] - ({r} + gone) == m[t] - gone
    {
      assert r !in m[t];
    }
  }

  /**
   * Unsubscribing a list takes exactly its receivers out of the map, keeps the map well filed,
   * and reports only topics that were present and are now gone.
   */
  lemma {:induction false} UnsubscribedIsWithout(m: Receivers, rs: seq<Receiver>)
    requires WellFiled(m)
    ensures var res := Unsubscribed(m, rs); WellFiled(res.0) && res.0 == Without(m, set r | r in rs)
    ensures var res := Unsubscribed(m, rs); forall t :: t in res.1 ==> t in m && t !in res.0
    decreases |rs|
  {
    var all := set r | r in rs;
    if rs == [] {
      assert all == {};
      WithoutNothing(m);
    } else {
      var tail := set r | r in rs[1..];
      assert all == {rs[0]} + tail;
      if rs[0].topic !in m {
        UnsubscribedIsWithout(m, rs[1..]);
        WithoutAbsent(m, rs[0], tail);
      } else {
        var d := Drop(m, rs[0]);
        DropWithout(m, rs[0], tail);
        UnsubscribedIsWithout(d, rs[1..]);
        var res := Unsubscribed(m, rs);
        forall t | t in res.1
          ensures t in m && t !in res.0
        {
          if rs[0].topic !in d && t == rs[0].topic {
            assert t !in Without(d, tail);
          }
        }
      }
    }
  }

  /**
   * When the receivers unsubscribed are distinct and all still subscribed, every one of them is
   * cancelled, and no other.
   */
  lemma {:induction false} UnsubscribedCancels(m: Receivers, rs: seq<Receiver>)
    requires WellFiled(m) && Distinct(rs) && forall r :: r in rs ==> r.topic in m && r in m[r.topic]
    ensures Unsubscribed(m, rs).2 == set r | r in rs :: r.id
    decreases |rs|
  {
    if rs != [] {
      var d := Drop(m, rs[0]);
      DropFiled(m, rs[0]);
      forall r | r in rs[1..]
        ensures r.topic in d && r in d[r.topic]
      {
        var k :| 0 <= k < |rs[1..]| && rs[1..][k] == r;
        assert r == rs[k + 1] && r in rs;
        assert r != rs[0];
        assert r in m[r.topic] - {rs[0]};
      }
      assert Distinct(rs[1..]) by {
        forall i, j | 0 <= i < j < |rs[1..]|
          ensures rs[1..][i] != rs[1..][j]
        {
          assert rs[1..][i] == rs[i + 1] && rs[1..][j] == rs[j + 1];
        }
      }
      DropWithout(m, rs[0], {});
      UnsubscribedCancels(d, rs[1..]);
      assert (set r | r in rs :: r.id) == {rs[0].id} + set r | r in rs[1..] :: r.id;
    }
  }

  /** Unsubscribing receivers of a single topic reports that topic once if it emptied it, else nothing. */
  lemma {:induction false} UnsubscribedOneTopic(m: Receivers, rs: seq<Receiver>, topic: string)
    requires WellFiled(m) && forall r :: r in rs ==> r.topic == topic
    ensures var res := Unsubscribed(m, rs); res.1 == if topic in m && topic !in res.0 then [topic] else []
    decreases |rs|
  {
    if rs != [] {
      assert rs[0] in rs;
      forall r | r in rs[1..]
        ensures r.topic == topic
      {
        assert r in rs;
      }
      if topic in m {
        var d := Drop(m, rs[0]);
        DropWithout(m, rs[0], {});
        UnsubscribedOneTopic(d, rs[1..], topic);
        UnsubscribedIsWithout(d, rs[1..]);
      } else {
        UnsubscribedOneTopic(m, rs[1..], topic);
        UnsubscribedIsWithout(m, rs[1..]);
      }
    }
  }

  /**
   * The delivery loop of `broadcastStrict`: every receiver gets the message, and the ones that
   * refuse it are collected, each once, in the order the set yields them.
   */
  method Refusers(broadcasting: set<Receiver>, receive: Receiver -> bool) returns (unsubscribe: seq<Receiver>)
    ensures Distinct(unsubscribe)
    ensures forall r :: r in unsubscribe <==> r in broadcasting && !receive(r)
  {
    var pending := broadcasting;
    unsubscribe := [];
    while pending != {}
      invariant pending <= broadcasting && Distinct(unsubscribe)
      invariant forall r :: r in unsubscribe <==> r in broadcasting && r !in pending && !receive(r)
      decreases |pending|
    {
      var r :| r in pending;
      if !receive(r) {
        unsubscribe := unsubscribe + [r];
      }
      pending := pending - {r};
    }
  }

  /** The receivers of the topics not in `topics`. */
  function Kept(m: Receivers, topics: seq<string>): (k: Receivers)
    ensures forall t :: t in k <==> t in m && t !in topics
  {
    map t | t in m && t !in topics :: m[t]
  }

  /** The identities of the receivers of the topics in `topics`. */
  function IDsOf(m: Receivers, topics: seq<string>): set<nat>
  {
    set t, r | t in topics && t in m && r in m[t] :: r.id
  }

  /** Cancelling one more topic: it leaves the map, and its receivers' identities join the cancelled ones. */
  lemma CancelStep(m: Receivers, topics: seq<string>, topic: string)
    ensures Kept(m, topics + [topic]) == Kept(m, topics) - {topic}
    ensures IDsOf(m, topics + [topic]) == IDsOf(m, topics) + if topic in m then set r | r in m[topic] :: r.id else {}
  {
    assert forall t :: t in topics + [topic] <==> t in topics || t == topic;
  }

  class DataHub {
    var receivers: Receivers
    /** Whether a channel for broadcasting changes was given. */
    const reportsChanges: bool
    /** The changes sent on that channel, in order. */
    var changes: seq<BroadcastingChange>
    /** The receivers whose context has been cancelled (their `removed` channel is closed). */
    var cancelled: set<nat>
    /** The identity the next new receiver gets. */
    var nextID: nat

    predicate Valid()
      reads this
    {
      WellFiled(receivers) && forall t, r :: t in receivers && r in receivers[t] ==> r.id < nextID
    }

    /** `NewDataHub`: no topics yet. */
    constructor (reportsChanges: bool)
      ensures Valid() && receivers == map[] && changes == [] && cancelled == {}
      ensures this.reportsChanges == reportsChanges
    {
      receivers := map[];
      this.reportsChanges := reportsChanges;
      changes := [];
      cancelled := {};
      nextID := 0;
    }

    /**
     * `Subscribe`: a new receiver joins its topic's set; the topic is reported as added only
     * when it had no receivers before.
     */
    method Subscribe(topic: string) returns (r: Receiver)
      requires Valid()
      modifies this
      ensures Valid() && r.topic == topic && cancelled == old(cancelled)
      ensures forall t, x :: t in old(receivers) && x in old(receivers)[t] ==> x != r
      ensures receivers == old(receivers)[topic := (if topic in old(receivers) then old(receivers)[topic] else {}) + {r}]
      ensures changes == old(changes) + if reportsChanges && topic !in old(receivers) then [BroadcastingChange([topic], [])] else []
    {
      r := Receiver(nextID, topic);
      nextID := nextID + 1;
      var addedTopic := topic !in receivers;
      var broadcasting := if addedTopic then {} else receivers[topic];
      receivers := receivers[topic := broadcasting + {r}];
      if reportsChanges && addedTopic {
        changes := changes + [BroadcastingChange([topic], [])];
      }
    }

    /** One topic of `Cancel`: the topic is deleted and all its receivers cancelled. */
    method CancelTopic(topic: string)
      requires Valid()
      modifies this
      ensures Valid() && changes == old(changes) && nextID == old(nextID)
      ensures receivers == old(receivers) - {topic}
      ensures cancelled == old(cancelled) + if topic in old(receivers) then set r | r in old(receivers)[topic] :: r.id else {}
    {
      if topic in receivers {
        cancelled := cancelled + set r | r in receivers[topic] :: r.id;
        receivers := receivers - {topic};
      }
    }

    /**
     * `Cancel`: every listed topic is deleted and all its receivers are cancelled; when the list
     * is not empty all of it is reported as removed, including topics that were absent.
     */
    method Cancel(topics: seq<string>)
      requires Valid()
      modifies this
      ensures Valid()
      ensures receivers == Kept(old(receivers), topics)
      ensures cancelled == old(cancelled) + IDsOf(old(receivers), topics)
      ensures changes == old(changes) + if reportsChanges && |topics| > 0 then [BroadcastingChange([], topics)] else []
    {
      var i := 0;
      assert topics[..0] == [];
      assert Kept(old(receivers), []) == old(receivers);
      while i < |topics|
        invariant 0 <= i <= |topics| && Valid() && changes == old(changes) && nextID == old(nextID)
        invariant receivers == Kept(old(receivers), topics[..i])
        invariant cancelled == old(cancelled) + IDsOf(old(receivers), topics[..i])
      {
        var topic := topics[i];
        assert topics[..i + 1] == topics[..i] + [topic];
        CancelStep(old(receivers), topics[..i], topic);
        CancelTopic(topic);
        i := i + 1;
      }
      assert topics[..i] == topics;
      if reportsChanges && |topics| > 0 {
        changes := changes + [BroadcastingChange([], topics)];
      }
    }

    /**
     * One step of `unsubscribe`: a receiver whose topic is gone is skipped; otherwise it leaves
     * its topic, which is deleted (and `emptied` set) when it was the last one, and it is cancelled.
     */
    method RemoveReceiver(r: Receiver) returns (emptied: bool)
      requires Valid()
      modifies this
      ensures Valid() && changes == old(changes) && nextID == old(nextID)
      ensures r.topic !in old(receivers) ==> receivers == old(receivers) && cancelled == old(cancelled) && !emptied
      ensures r.topic in old(receivers) ==>
        receivers == Drop(old(receivers), r) && cancelled == old(cancelled) + {r.id} && (emptied <==> r.topic !in receivers)
    {
      emptied := false;
      if r.topic in receivers {
        DropFiled(receivers, r);
        receivers := Drop(receivers, r);
        emptied := r.topic !in receivers;
        cancelled := cancelled + {r.id};
      }
    }

    /**
     * `unsubscribe`: the receivers are taken out one by one as `Unsubscribed` says, and the topics
     * this empties are reported as removed in one change.
     */
    method Unsubscribe(rs: seq<Receiver>)
      requires Valid()
      modifies this
      ensures Valid()
      ensures receivers == Unsubscribed(old(receivers), rs).0
      ensures cancelled == old(cancelled) + Unsubscribed(old(receivers), rs).2
      ensures var removed := Unsubscribed(old(receivers), rs).1;
        changes == old(changes) + if reportsChanges && |removed| > 0 then [BroadcastingChange([], removed)] else []
    {
      if |rs| == 0 {
        return;
      }
      var removedTopics: seq<string> := [];
      var i := 0;
      while i < |rs|
        invariant 0 <= i <= |rs| && Valid() && changes == old(changes) && nextID == old(nextID)
        invariant var res := Unsubscribed(receivers, rs[i..]); var all := Unsubscribed(old(receivers), rs);
          res.0 == all.0 && removedTopics + res.1 == all.1 && cancelled + res.2 == old(cancelled) + all.2
      {
        var r := rs[i];
        assert rs[i..][1..] == rs[i + 1..];
        var emptied := RemoveReceiver(r);
        if emptied {
          removedTopics := removedTopics + [r.topic];
        }
        i := i + 1;
      }
      assert rs[i..] == [];
      assert removedTopics == Unsubscribed(old(receivers), rs).1;
      if reportsChanges && |removedTopics| > 0 {
        changes := changes + [BroadcastingChange([], removedTopics)];
      }
    }

    /**
     * The unsubscriber `Subscribe` hands out: cancels the receiver, then unsubscribes it, so
     * that it leaves its topic, and the topic goes away (reported as removed) with its last receiver.
     */
    method Unsubscriber(r: Receiver)
      requires Valid()
      modifies this
      ensures Valid() && cancelled == old(cancelled) + {r.id}
      ensures receivers == Without(old(receivers), {r})
      ensures changes == old(changes) +
        if reportsChanges && r.topic in old(receivers) && r.topic !in receivers then [BroadcastingChange([], [r.topic])] else []
    {
      cancelled := cancelled + {r.id};
      UnsubscribedIsWithout(receivers, [r]);
      UnsubscribedOneTopic(receivers, [r], r.topic);
      assert (set x | x in [r]) == {r};
      Unsubscribe([r]);
    }

    /**
     * `Broadcast`: every receiver of the topic gets the message (`receive` says which accept it),
     * and exactly the ones that refuse are unsubscribed, in the order the set yields them; a
     * topic without receivers changes nothing.
     */
    method Broadcast(topic: string, receive: Receiver -> bool)
      requires Valid()
      modifies this
      ensures Valid()
      ensures topic !in old(receivers) ==>
        receivers == old(receivers) && cancelled == old(cancelled) && changes == old(changes)
      ensures topic in old(receivers) ==>
        var refused := set r | r in old(receivers)[topic] && !receive(r);
        receivers == Without(old(receivers), refused) &&
        cancelled == old(cancelled) + (set r | r in refused :: r.id) &&
        changes == old(changes) + if reportsChanges && topic !in receivers then [BroadcastingChange([], [topic])] else []
    {
      if topic !in receivers {
        return;
      }
      var broadcasting := receivers[topic];
      var unsubscribe := Refusers(broadcasting, receive);
      var refused := set r | r in broadcasting && !receive(r);
      assert (set r | r in unsubscribe) == refused;
      UnsubscribedIsWithout(receivers, unsubscribe);
      UnsubscribedCancels(receivers, unsubscribe);
      UnsubscribedOneTopic(receivers, unsubscribe, topic);
      assert (set r | r in unsubscribe :: r.id) == set r | r in refused :: r.id;
      Unsubscribe(unsubscribe);
    }
  }
}
