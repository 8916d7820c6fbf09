/**
  Topic epochs: thirty-day periods counted from the Unix epoch in 32 bits, with a sixty-second overlap in which the
  previous period's key still verifies. Instants are nanoseconds from the Unix epoch.
*/
module Epochs {
  import opened Common

  const SECOND := 1_000_000_000
  const PERIOD := 30 * 24 * 60 * 60 * SECOND
  const OVERLAP := 60 * SECOND
  const MAX_EPOCH := TWO_TO_THE_32 - 1

  /** The period containing an instant, truncated to 32 bits; instants before the Unix epoch count as period 0. */
  function Epoch(at: int): nat {
    var seconds := at / SECOND;
    if seconds < 0 then 0 else (seconds / (PERIOD / SECOND)) % TWO_TO_THE_32
  }

  function Boundary(epoch: nat): int {
    epoch * PERIOD
  }

  /** The instant at which the key of an epoch below the last one must be gone. */
  function Deadline(epoch: nat): int {
    Boundary(epoch + 1) + OVERLAP
  }

  lemma PeriodOf(at: int)
    requires at >= 0
    ensures (at / SECOND) / (PERIOD / SECOND) == at / PERIOD
  {
  }

  lemma Brackets(at: int, k: int)
    ensures at / PERIOD == k <==> k * PERIOD <= at < k * PERIOD + PERIOD
  {
  }

  /** An instant lies in the period that its epoch names exactly when it is inside the 2^32 periods from 1970 on. */
  lemma EpochBracketsInstant(at: int)
    ensures Boundary(Epoch(at)) <= at < Boundary(Epoch(at) + 1) <==> 0 <= at < TWO_TO_THE_32 * PERIOD
  {
    if at < 0 {
      assert Epoch(at) == 0;
    } else {
      PeriodOf(at);
      var k := at / PERIOD;
      Brackets(at, k);
      if k < TWO_TO_THE_32 {
        assert Epoch(at) == k;
      } else {
        assert Epoch(at) + 1 <= TWO_TO_THE_32;
      }
    }
  }

  /** Within range a period is determined by any instant in it. */
  lemma EpochOf(at: int, epoch: nat)
    requires epoch < TWO_TO_THE_32 && Boundary(epoch) <= at < Boundary(epoch + 1)
    ensures Epoch(at) == epoch
  {
    PeriodOf(at);
    Brackets(at, epoch);
  }

  predicate EpochUsable(epoch: nat, at: int, forIssuance: bool) {
    var current := Epoch(at);
    if epoch == current then true
    else if forIssuance || current == 0 || epoch != current - 1 then false
    else at < Boundary(current) + OVERLAP
  }

  predicate PreviousUsable(epoch: nat, at: int, expiry: int, accepted: bool) {
    accepted && at < expiry && EpochUsable(epoch, at, false)
  }

  /** Inside the range, an epoch verifies exactly from the start of its period to sixty seconds past its end. */
  lemma UsableInterval(epoch: nat, at: int)
    requires epoch < MAX_EPOCH && 0 <= at < TWO_TO_THE_32 * PERIOD
    ensures EpochUsable(epoch, at, false) <==> Boundary(epoch) <= at < Deadline(epoch)
    ensures EpochUsable(epoch, at, true) <==> Boundary(epoch) <= at < Boundary(epoch + 1)
  {
    EpochBracketsInstant(at);
    if Boundary(epoch) <= at < Boundary(epoch + 1) {
      EpochOf(at, epoch);
    } else if Boundary(epoch + 1) <= at < Deadline(epoch) {
      EpochOf(at, epoch + 1);
    }
  }

  // ----- The signed schedule of topic keys

  datatype Purpose = Topic | Other

  datatype CommitmentKey = CommitmentKey(purpose: Purpose, keyId: string, epoch: Option<nat>, notBefore: int,
                                         notAfter: int)

  predicate Covers(key: CommitmentKey, at: int) {
    key.notBefore <= at < key.notAfter
  }

  function TopicKeys(keys: seq<CommitmentKey>): seq<CommitmentKey> {
    if keys == [] then []
    else
      var rest := TopicKeys(keys[..|keys| - 1]);
      if keys[|keys| - 1].purpose.Topic? then rest + [keys[|keys| - 1]] else rest
  }

  method SelectTopicKeys(keys: seq<CommitmentKey>) returns (topic: seq<CommitmentKey>)
    ensures topic == TopicKeys(keys)
  {
    topic := [];
    for i := 0 to |keys|
      invariant topic == TopicKeys(keys[..i])
    {
      assert keys[..i + 1][..i] == keys[..i];
      if keys[i].purpose.Topic? {
        topic := topic + [keys[i]];
      }
    }
    assert keys[..|keys|] == keys;
  }

  /** The handoff from one key to the key of the next period, in 32-bit epochs. */
  predicate HandsOver(outgoing: CommitmentKey, incoming: CommitmentKey) {
    && outgoing.epoch.Some? && incoming.epoch == Some((outgoing.epoch.value + 1) % TWO_TO_THE_32)
    && incoming.notBefore == Boundary(incoming.epoch.value)
    && outgoing.notAfter >= Boundary(incoming.epoch.value) + OVERLAP
  }

  /** The current key alone, or with the key it hands over to, or in the overlap with the key it took over from. */
  predicate ScheduleWith(issued: int, current: CommitmentKey, adjacent: Option<CommitmentKey>) {
    && current.epoch == Some(Epoch(issued)) && Covers(current, issued)
    && match adjacent
       case None => true
       case Some(other) =>
         && other.epoch.Some? && other.epoch != current.epoch
         && (HandsOver(current, other) ||
             (other.epoch.value + 1 == current.epoch.value && HandsOver(other, current) &&
              issued < Boundary(current.epoch.value) + OVERLAP))
  }

  predicate Schedule(issued: int, topic: seq<CommitmentKey>) {
    || (|topic| == 1 && ScheduleWith(issued, topic[0], None))
    || (|topic| == 2 && ScheduleWith(issued, topic[0], Some(topic[1])))
    || (|topic| == 2 && ScheduleWith(issued, topic[1], Some(topic[0])))
  }

  /** Accepts exactly the schedules above. */
  method ValidateTopicKeySchedule(issued: int, keys: seq<CommitmentKey>) returns (eligible: bool)
    requires forall i :: 0 <= i < |keys| && keys[i].epoch.Some? ==> keys[i].epoch.value < TWO_TO_THE_32
    ensures eligible <==> Schedule(issued, TopicKeys(keys))
  {
    var topic := SelectTopicKeys(keys);
    TopicKeysAreKeys(keys);
    if |topic| < 1 || |topic| > 2 {
      return false;
    }
    var currentEpoch := Epoch(issued);
    var current: Option<CommitmentKey>, adjacent: Option<CommitmentKey> := None, None;
    for i := 0 to |topic|
      invariant i == 0 ==> current.None? && adjacent.None?
      invariant i == 1 ==> (if topic[0].epoch == Some(currentEpoch) then current == Some(topic[0]) && adjacent.None?
                            else topic[0].epoch.Some? && adjacent == Some(topic[0]) && current.None?)
      invariant i == 2 ==> (current == Some(topic[0]) && adjacent == Some(topic[1])) ||
                           (current == Some(topic[1]) && adjacent == Some(topic[0]))
      invariant i == 2 ==> (topic[0].epoch == Some(currentEpoch)) != (topic[1].epoch == Some(currentEpoch))
      invariant i == 2 ==> topic[0].epoch.Some? && topic[1].epoch.Some?
      invariant current.Some? ==> current.value.epoch == Some(currentEpoch)
    {
      var descriptor := topic[i];
      if descriptor.epoch.None? {
        return false;
      }
      if descriptor.epoch.value == currentEpoch {
        if current.Some? {
          return false;
        }
        current := Some(descriptor);
      } else {
        if adjacent.Some? {
          return false;
        }
        adjacent := Some(descriptor);
      }
    }
    if current.None? || issued < current.value.notBefore || issued >= current.value.notAfter {
      return false;
    }
    if adjacent.None? {
      return true;
    }
    var adjacentEpoch := adjacent.value.epoch.value;
    if adjacentEpoch == (currentEpoch + 1) % TWO_TO_THE_32 {
      var boundary := Boundary(adjacentEpoch);
      return !(adjacent.value.notBefore != boundary || current.value.notAfter < boundary + OVERLAP);
    } else if currentEpoch > 0 && adjacentEpoch == currentEpoch - 1 {
      var boundary := Boundary(currentEpoch);
      return !(current.value.notBefore != boundary || adjacent.value.notAfter < boundary + OVERLAP ||
               issued >= boundary + OVERLAP);
    }
    return false;
  }

  lemma {:induction false} TopicKeysAreKeys(keys: seq<CommitmentKey>)
    requires forall i :: 0 <= i < |keys| && keys[i].epoch.Some? ==> keys[i].epoch.value < TWO_TO_THE_32
    ensures forall t :: t in TopicKeys(keys) ==> t.purpose.Topic? && (t.epoch.Some? ==> t.epoch.value < TWO_TO_THE_32)
  {
    if keys != [] {
      TopicKeysAreKeys(keys[..|keys| - 1]);
    }
  }

  /**
    An accepted schedule of the current key and the next leaves no instant without a key from issue on: the outgoing key
    covers every instant up to sixty seconds past the boundary, the whole time for which its epoch verifies, and the
    incoming one starts exactly at the boundary.
  */
  lemma ScheduleLeavesNoGap(issued: int, current: CommitmentKey, next: CommitmentKey, at: int)
    requires 0 <= issued < MAX_EPOCH * PERIOD
    requires ScheduleWith(issued, current, Some(next)) && next.epoch == Some(Epoch(issued) + 1)
    requires issued <= at < Deadline(Epoch(issued))
    ensures Covers(current, at) && EpochUsable(current.epoch.value, at, false)
    ensures at >= Boundary(Epoch(issued) + 1) ==> next.notBefore <= at && next.epoch == Some(Epoch(at))
    ensures at < Boundary(Epoch(issued) + 1) ==> current.epoch == Some(Epoch(at))
  {
    EpochBracketsInstant(issued);
    var epoch := Epoch(issued);
    assert epoch < MAX_EPOCH;
    if at < Boundary(epoch + 1) {
      EpochOf(at, epoch);
    } else {
      EpochOf(at, epoch + 1);
    }
    UsableInterval(epoch, at);
  }
}
