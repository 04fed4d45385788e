/** RtdManager's subscription maps and connect-cancel registry. */
module RtdSubscriptions {

  type TopicId = x: int | -0x8000_0000 <= x < 0x8000_0000

  /** The two maps are each other's inverse and no key keeps an empty set. */
  ghost predicate Inverse(keyToIDs: map<string, set<TopicId>>, idToKey: map<TopicId, string>) {
    && (forall k :: k in keyToIDs ==> keyToIDs[k] != {})
    && (forall k, id :: k in keyToIDs && id in keyToIDs[k] ==> id in idToKey && idToKey[id] == k)
    && (forall id :: id in idToKey ==> idToKey[id] in keyToIDs && id in keyToIDs[idToKey[id]])
  }

  /** So the index by key says nothing the topic map does not. */
  lemma InverseIsUnique(m: map<string, set<TopicId>>, n: map<string, set<TopicId>>, idToKey: map<TopicId, string>)
    requires Inverse(m, idToKey) && Inverse(n, idToKey)
    ensures m == n
  {
    SubInverse(m, n, idToKey);
    SubInverse(n, m, idToKey);
    forall k | k in m ensures k in n && m[k] == n[k] {
    }
    assert m.Keys == n.Keys;
  }

  lemma SubInverse(m: map<string, set<TopicId>>, n: map<string, set<TopicId>>, idToKey: map<TopicId, string>)
    requires Inverse(m, idToKey) && Inverse(n, idToKey)
    ensures forall k :: k in m ==> k in n && m[k] <= n[k]
  {
    forall k | k in m ensures k in n && m[k] <= n[k] {
      var id :| id in m[k];
      assert idToKey[id] == k;
      forall i | i in m[k] ensures i in n[k] {
        assert idToKey[i] == k;
      }
    }
  }

  // ----- connect cancels over runs

  /** live holds the registration parked on each topic, by generation; cancelled
      lists the generations whose cancel func has been called. */
  datatype Registrations = Registrations(live: map<TopicId, nat>, gen: nat, cancelled: seq<nat>)

  datatype Event =
    | Connect(topic: TopicId)            // RegisterConnectCancel
    | Disconnect(topic: TopicId)         // Unsubscribe
    | Finish(topic: TopicId, gen: nat)   // the deregister func of registration gen

  function CancelOn(r: Registrations, t: TopicId): seq<nat> {
    r.cancelled + if t in r.live then [r.live[t]] else []
  }

  function Step(r: Registrations, e: Event): Registrations {
    match e
    case Connect(t) => Registrations(r.live[t := r.gen + 1], r.gen + 1, CancelOn(r, t))
    case Disconnect(t) => Registrations(r.live - {t}, r.gen, CancelOn(r, t))
    case Finish(t, g) => if t in r.live && r.live[t] == g then r.(live := r.live - {t}) else r
  }

  function Run(r: Registrations, es: seq<Event>): Registrations
    decreases |es|
  {
    if es == [] then r else Run(Step(r, es[0]), es[1..])
  }

  /** Generations are unique; one still registered has not been cancelled, and
      none is cancelled twice. */
  ghost predicate Good(r: Registrations) {
    && (forall t :: t in r.live ==> r.live[t] <= r.gen && r.live[t] !in r.cancelled)
    && (forall t, u :: t in r.live && u in r.live && t != u ==> r.live[t] != r.live[u])
    && (forall g :: g in r.cancelled ==> g <= r.gen)
    && (forall i, j :: 0 <= i < j < |r.cancelled| ==> r.cancelled[i] != r.cancelled[j])
  }

  lemma StepKeeps(r: Registrations, e: Event)
    requires Good(r)
    ensures Good(Step(r, e)) && r.gen <= Step(r, e).gen
  {
  }

  datatype Fate = Registered | Cancelled | Finished

  /** What becomes of the registration gen on topic t: the first event that
      concerns it settles it, and a deregister of any other generation does not. */
  function FateOf(es: seq<Event>, t: TopicId, gen: nat): Fate {
    if es == [] then Registered
    else match es[0]
      case Connect(u) => if u == t then Cancelled else FateOf(es[1..], t, gen)
      case Disconnect(u) => if u == t then Cancelled else FateOf(es[1..], t, gen)
      case Finish(u, g) => if u == t && g == gen then Finished else FateOf(es[1..], t, gen)
  }

  /** A generation no topic holds is never held or cancelled again. */
  lemma {:induction false} RetiredStays(r: Registrations, es: seq<Event>, gen: nat)
    requires Good(r) && gen <= r.gen && gen !in r.live.Values
    ensures gen !in Run(r, es).live.Values
    ensures gen in Run(r, es).cancelled <==> gen in r.cancelled
    decreases |es|
  {
    if es != [] {
      StepKeeps(r, es[0]);
      RetiredStays(Step(r, es[0]), es[1..], gen);
    }
  }

  /** Over any run a registration is cancelled exactly when it is superseded or
      disconnected while still registered; otherwise it finishes uncancelled, or
      is still the one its topic holds, whatever stale deregisters ran. */
  lemma {:induction false} FateDecides(r: Registrations, es: seq<Event>, t: TopicId)
    requires Good(r) && t in r.live
    ensures var r', gen := Run(r, es), r.live[t];
      && Good(r')
      && (FateOf(es, t, gen) == Registered <==> t in r'.live && r'.live[t] == gen)
      && (FateOf(es, t, gen) == Cancelled <==> gen in r'.cancelled)
    decreases |es|
  {
    if es != [] {
      var r1, gen := Step(r, es[0]), r.live[t];
      StepKeeps(r, es[0]);
      if t in r1.live && r1.live[t] == gen {
        FateDecides(r1, es[1..], t);
      } else {
        RetiredStays(r1, es[1..], gen);
        RunKeeps(r1, es[1..]);
        var r' := Run(r1, es[1..]);
        assert t in r'.live ==> r'.live[t] in r'.live.Values;
      }
    }
  }

  lemma {:induction false} RunKeeps(r: Registrations, es: seq<Event>)
    requires Good(r)
    ensures Good(Run(r, es))
    decreases |es|
  {
    if es != [] {
      StepKeeps(r, es[0]);
      RunKeeps(Step(r, es[0]), es[1..]);
    }
  }

  class RtdManager {
    var keyToIDs: map<string, set<TopicId>>
    var idToKey: map<TopicId, string>
    var connectCancels: map<TopicId, nat>  // the registration's generation stands for its cancel func
    var connectGen: nat
    ghost var cancelled: seq<nat>          // generations whose cancel func has been called

    ghost function Abs(): Registrations
      reads this
    {
      Registrations(connectCancels, connectGen, cancelled)
    }

    ghost predicate Valid()
      reads this
    {
      Inverse(keyToIDs, idToKey) && Good(Abs())
    }

    constructor ()
      ensures Valid() && idToKey == map[] && connectCancels == map[] && cancelled == []
    {
      keyToIDs, idToKey, connectCancels, connectGen := map[], map[], map[], 0;
      cancelled := [];
    }

    /** Take a topic out of its key's set, and the key out when that empties it. */
    method DropFromKey(key: string, topicID: TopicId)
      requires key in keyToIDs
      modifies this`keyToIDs
      ensures keyToIDs == if old(keyToIDs)[key] - {topicID} == {} then old(keyToIDs) - {key}
                          else old(keyToIDs)[key := old(keyToIDs)[key] - {topicID}]
    {
      keyToIDs := keyToIDs[key := keyToIDs[key] - {topicID}];
      if |keyToIDs[key]| == 0 {
        keyToIDs := keyToIDs - {key};
        assert keyToIDs == old(keyToIDs) - {key};
      }
    }

    method Subscribe(key: string, topicID: TopicId)
      requires Valid()
      modifies this`keyToIDs, this`idToKey
      ensures Valid() && idToKey == old(idToKey)[topicID := key]
    {
      if topicID in idToKey {
        var oldKey := idToKey[topicID];
        if oldKey == key {
          assert idToKey == idToKey[topicID := key];
          return;
        }
        DropFromKey(oldKey, topicID);
        idToKey := idToKey - {topicID};
      }
      AddToKey(key, topicID);
    }

    method AddToKey(key: string, topicID: TopicId)
      requires Inverse(keyToIDs, idToKey) && topicID !in idToKey
      modifies this`keyToIDs, this`idToKey
      ensures Inverse(keyToIDs, idToKey) && idToKey == old(idToKey)[topicID := key]
    {
      if key !in keyToIDs {
        keyToIDs := keyToIDs[key := {}];
      }
      keyToIDs := keyToIDs[key := keyToIDs[key] + {topicID}];
      idToKey := idToKey[topicID := key];
    }

    method DropTopic(topicID: TopicId)
      requires Inverse(keyToIDs, idToKey)
      modifies this`keyToIDs, this`idToKey
      ensures Inverse(keyToIDs, idToKey) && idToKey == old(idToKey) - {topicID}
    {
      if topicID in idToKey {
        DropFromKey(idToKey[topicID], topicID);
        idToKey := idToKey - {topicID};
      }
    }

    /** Disconnect: drop the subscription and cancel the connect handler still
        registered for the topic, as one step. */
    method Unsubscribe(topicID: TopicId)
      requires Valid()
      modifies this
      ensures Valid() && idToKey == old(idToKey) - {topicID}
      ensures Abs() == Step(old(Abs()), Disconnect(topicID))
    {
      DropTopic(topicID);
      if topicID in connectCancels {
        var gen := connectCancels[topicID];
        connectCancels := connectCancels - {topicID};
        cancelled := cancelled + [gen];
      }
    }

    /** A fresh generation for topicID; the registration it replaces is cancelled. */
    method RegisterConnectCancel(topicID: TopicId) returns (gen: nat)
      requires Valid()
      modifies this`connectCancels, this`connectGen, this`cancelled
      ensures Valid() && Abs() == Step(old(Abs()), Connect(topicID))
      ensures gen == old(connectGen) + 1 && topicID in connectCancels && connectCancels[topicID] == gen
    {
      connectGen := connectGen + 1;
      gen := connectGen;
      if topicID in connectCancels {
        cancelled := cancelled + [connectCancels[topicID]];
      }
      connectCancels := connectCancels[topicID := gen];
    }

    /** The deregister func of registration gen: it removes its own entry and
        never a newer one on a reused topic id, and cancels nothing. */
    method Deregister(topicID: TopicId, gen: nat)
      requires Valid()
      modifies this`connectCancels
      ensures Valid() && Abs() == Step(old(Abs()), Finish(topicID, gen))
    {
      if topicID in connectCancels && connectCancels[topicID] == gen {
        connectCancels := connectCancels - {topicID};
      }
    }

    /** Publish's fan-out: one attempt for every topic of the key, in the order
        map iteration gives, failures notwithstanding; none when the send gate
        does not open. */
    method Publish(key: string, gateOpen: bool, fails: TopicId -> bool)
        returns (refused: bool, attempted: seq<TopicId>, failed: set<TopicId>)
      requires Valid()
      ensures refused <==> !gateOpen && exists id :: id in idToKey && idToKey[id] == key
      ensures forall id :: id in attempted <==> gateOpen && id in idToKey && idToKey[id] == key
      ensures forall i, j :: 0 <= i < j < |attempted| ==> attempted[i] != attempted[j]
      ensures forall id :: id in failed <==> id in attempted && fails(id)
    {
      refused, attempted, failed := false, [], {};
      var left := if key in keyToIDs then keyToIDs[key] else {};
      if left == {} {
        return;
      }
      if !gateOpen {
        ghost var id :| id in left;
        assert idToKey[id] == key;
        return true, [], {};
      }
      ghost var all := left;
      while left != {}
        invariant left <= all
        invariant forall id :: id in attempted <==> id in all && id !in left
        invariant forall i, j :: 0 <= i < j < |attempted| ==> attempted[i] != attempted[j]
        invariant forall id :: id in failed <==> id in attempted && fails(id)
      {
        var id :| id in left;
        left := left - {id};
        attempted := attempted + [id];
        if fails(id) {
          failed := failed + {id};
        }
      }
    }
  }
}
