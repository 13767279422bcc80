/**
 Migration 0009: uniqueness of WireGuard public keys, over every peer or over live peers only, and the
 DELETE with which the downgrade makes keys unique again.
 */
module PeerKeys {

  type Id = nat

  datatype State = Requested | Applying | Active | Revoking | Revoked | Failed

  datatype Peer = Peer(key: string, state: State, createdAt: int)

  type Peers = map<Id, Peer>

  predicate Live(p: Peer)
  {
    p.state in {Requested, Applying, Active, Revoking}
  }

  /** The index of the upgrade: no two live peers share a key. */
  ghost predicate UniqueLive(peers: Peers)
  {
    forall i, j | i in peers && j in peers && peers[i].key == peers[j].key && Live(peers[i]) && Live(peers[j]) :: i == j
  }

  /** The constraint of the downgrade: no two peers share a key. */
  predicate Unique(peers: Peers)
  {
    forall i, j | i in peers && j in peers && peers[i].key == peers[j].key :: i == j
  }

  /** `other` is a reason to delete `id`: the same key, and live or newer. */
  predicate Outdoes(peers: Peers, other: Id, id: Id)
    requires other in peers && id in peers
  {
    && peers[other].key == peers[id].key && other != id
    && (Live(peers[other]) || peers[other].createdAt > peers[id].createdAt)
  }

  predicate Doomed(peers: Peers, id: Id)
    requires id in peers
  {
    !Live(peers[id]) && exists other :: other in peers && Outdoes(peers, other, id)
  }

  function Deduplicated(peers: Peers): Peers
  {
    map id | id in peers && !Doomed(peers, id) :: peers[id]
  }

  // ---------------------------------------------------------------- what the DELETE leaves

  /** Every key that had a peer still has one: the live one, or a newest one. */
  lemma {:induction false} KeyKept(peers: Peers, id: Id) returns (kept: Id)
    requires id in peers
    ensures kept in Deduplicated(peers) && peers[kept].key == peers[id].key
  {
    if Doomed(peers, id) {
      kept := Newer(peers, id, peers.Keys);
    } else {
      kept := id;
    }
  }

  /** Follow reasons for deletion until there is none; each step is to a live peer or to a newer one. */
  lemma {:induction false} Newer(peers: Peers, id: Id, left: set<Id>) returns (kept: Id)
    requires id in peers && left <= peers.Keys
    requires forall other | other in peers && Outdoes(peers, other, id) && !Live(peers[other]) :: other in left
    ensures kept in Deduplicated(peers) && peers[kept].key == peers[id].key
    decreases left
  {
    if Doomed(peers, id) {
      var other :| other in peers && Outdoes(peers, other, id);
      if Live(peers[other]) {
        kept := other;
      } else {
        kept := Newer(peers, other, left - {other});
      }
    } else {
      kept := id;
    }
  }

  lemma LiveKept(peers: Peers, id: Id)
    ensures id in peers && Live(peers[id]) ==> id in Deduplicated(peers) && Deduplicated(peers)[id] == peers[id]
  {
  }

  /** No live peer has the key, and nothing with the key is newer than this peer. */
  ghost predicate Newest(peers: Peers, id: Id)
  {
    id in peers && forall other | other in peers && peers[other].key == peers[id].key
      :: !Live(peers[other]) && peers[other].createdAt <= peers[id].createdAt
  }

  ghost predicate TieForNewest(peers: Peers)
  {
    exists i, j :: i != j && Newest(peers, i) && Newest(peers, j) && peers[i].key == peers[j].key
  }

  lemma NewestSurvives(peers: Peers, id: Id)
    requires Newest(peers, id)
    ensures id in Deduplicated(peers)
  {
  }

  lemma SurvivorsApart(peers: Peers, i: Id, j: Id)
    requires UniqueLive(peers) && i != j && i in Deduplicated(peers) && j in Deduplicated(peers)
      && peers[i].key == peers[j].key
    ensures Newest(peers, i)
  {
  }

  /** The constraint can be created again exactly when no key without a live peer has two newest peers of one age. */
  lemma UniqueIff(peers: Peers)
    requires UniqueLive(peers)
    ensures Unique(Deduplicated(peers)) <==> !TieForNewest(peers)
  {
    var left := Deduplicated(peers);
    forall i, j | i != j && Newest(peers, i) && Newest(peers, j) && peers[i].key == peers[j].key
      ensures !Unique(left)
    {
      NewestSurvives(peers, i);
      NewestSurvives(peers, j);
    }
    forall i, j | i in left && j in left && left[i].key == left[j].key && i != j
      ensures TieForNewest(peers)
    {
      SurvivorsApart(peers, i, j);
      SurvivorsApart(peers, j, i);
    }
  }

  /** Two revoked peers of one key and one creation time. */
  const TWINS: Peers := map[0 := Peer("k", Revoked, 0), 1 := Peer("k", Revoked, 0)]

  /** Both survive, and the constraint cannot be created. */
  lemma TwinsStay()
    ensures UniqueLive(TWINS) && TieForNewest(TWINS) && Deduplicated(TWINS) == TWINS && !Unique(Deduplicated(TWINS))
  {
    assert Newest(TWINS, 0) && Newest(TWINS, 1) && TWINS[0].key == TWINS[1].key;
    UniqueIff(TWINS);
  }

  ghost predicate DistinctTimes(peers: Peers)
  {
    forall i, j | i in peers && j in peers && peers[i].key == peers[j].key
      && peers[i].createdAt == peers[j].createdAt :: i == j
  }

  /** With distinct creation times every key ends with exactly one peer. */
  lemma ExactlyOne(peers: Peers, id: Id) returns (kept: Id)
    requires UniqueLive(peers) && DistinctTimes(peers) && id in peers
    ensures kept in Deduplicated(peers) && peers[kept].key == peers[id].key
    ensures forall other | other in Deduplicated(peers) && peers[other].key == peers[id].key :: other == kept
  {
    kept := KeyKept(peers, id);
    forall i, j | Newest(peers, i) && Newest(peers, j) && peers[i].key == peers[j].key
      ensures i == j
    {
      assert peers[i].createdAt == peers[j].createdAt;
    }
    UniqueIff(peers);
  }

  // ---------------------------------------------------------------- the migration

  datatype Rule = EveryPeer | LivePeers

  ghost predicate Obeys(peers: Peers, rule: Rule)
  {
    if rule.EveryPeer? then Unique(peers) else UniqueLive(peers)
  }

  /** The table and the uniqueness rule on it. A migration that fails leaves both as they were. */
  class Schema {
    var peers: Peers
    var rule: Rule

    ghost predicate Valid()
      reads this
    {
      Obeys(peers, rule)
    }

    method Upgrade()
      requires Valid() && rule == EveryPeer
      modifies this
      ensures Valid() && rule == LivePeers && peers == old(peers)
    {
      rule := LivePeers;
    }

    method Downgrade() returns (ok: bool)
      requires Valid() && rule == LivePeers
      modifies this
      ensures Valid()
      ensures ok <==> !TieForNewest(old(peers))
      ensures ok ==> rule == EveryPeer && peers == Deduplicated(old(peers))
      ensures !ok ==> rule == LivePeers && peers == old(peers)
    {
      UniqueIff(peers);
      var left := Deduplicated(peers);
      ok := Unique(left);
      if ok {
        peers, rule := left, EveryPeer;
      }
    }
  }

  /** Up and down again with no peer added in between deletes nothing. */
  lemma UpAndDown(peers: Peers)
    requires Unique(peers)
    ensures Deduplicated(peers) == peers && !TieForNewest(peers)
  {
  }
}
