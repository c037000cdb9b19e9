/** The state of one session: message identifiers, sequence numbers, the clock of the server, replay protection.
    Times are real numbers of seconds. */
module AuthData {
  import opened Bytes
  import opened DuplicateChecker

  const SECOND: real := 4294967296.0
  const WINDOW: nat := 1000

  datatype PacketStatus = Accepted | WrongSession | NotFromServer | Duplicate | TooOldOrTooNew

  /** The upper half of an identifier: the whole seconds */
  function Seconds(id: nat): nat {
    id / 0x1_0000_0000
  }

  function IdTime(id: nat): real {
    id as real / SECOND
  }

  lemma IdTimeIsClose(id: nat)
    ensures Seconds(id) as real <= IdTime(id) < Seconds(id) as real + 1.0
  {
    var s, low := Seconds(id), id % 0x1_0000_0000;
    assert id == s * 0x1_0000_0000 + low;
    assert id as real == s as real * SECOND + low as real;
    assert IdTime(id) == s as real + low as real / SECOND;
  }

  // ---------- Identifiers

  const LOW_BITS: nat := 0x40_0000

  /** t with its 22 low-order bits changed by the random ones */
  function Randomized(t: nat, rx: nat): nat {
    t / LOW_BITS * LOW_BITS + XorBits(t % LOW_BITS, rx % LOW_BITS, 22)
  }

  lemma RandomizedShows(t: nat, rx: nat)
    ensures ShowsTime(Randomized(t, rx), t)
    ensures XorBits(Randomized(t, rx) % LOW_BITS, rx % LOW_BITS, 22) == t % LOW_BITS
  {
    Pow2At22();
    var q, low := t / LOW_BITS, XorBits(t % LOW_BITS, rx % LOW_BITS, 22);
    XorBitsTwice(t % LOW_BITS, rx % LOW_BITS, 22);
    hide XorBits;
    assert (q * LOW_BITS + low) / LOW_BITS == q && (q * LOW_BITS + low) % LOW_BITS == low;
  }

  lemma Pow2At22()
    ensures Pow2(22) == LOW_BITS
  {
    Pow2Nibble(2);
    Pow2Nibble(6);
    Pow2Nibble(10);
    Pow2Nibble(14);
    Pow2Nibble(18);
    assert Pow2(2) == 2 * Pow2(1);
  }

  /** The identifier that next_message_id derives from server time t and random number rx */
  function NextId(last: nat, t: nat, rx: nat): nat {
    var x := Randomized(t, rx);
    var result := x - x % 4;
    if last >= result then last + 8 * (rx / LOW_BITS % 1024 + 1) else result
  }

  /** The identifier shows the time t: it differs from it in the 22 low bits only. */
  predicate ShowsTime(id: nat, t: nat) {
    id / LOW_BITS == t / LOW_BITS
  }

  /** It is at most 1024 steps of 8 above the last one. */
  predicate IsStepFrom(id: nat, last: nat) {
    last < id <= last + 8192 && (id - last) % 8 == 0
  }

  /** Identifiers only grow and stay multiples of 4, however the clock runs. An identifier shows the time, but for one
      that is a step above a last identifier which is not behind the time. */
  lemma NextIdGrows(last: nat, t: nat, rx: nat)
    ensures NextId(last, t, rx) > last
    ensures last % 4 == 0 ==> NextId(last, t, rx) % 4 == 0
    ensures || ShowsTime(NextId(last, t, rx), t)
            || (IsStepFrom(NextId(last, t, rx), last) && last / LOW_BITS >= t / LOW_BITS)
  {
    hide Randomized;
    var x := Randomized(t, rx);
    RandomizedShows(t, rx);
    RoundedDown(x);
    var step := rx / LOW_BITS % 1024 + 1;
    assert step <= 1024;
    TwoMoreFours(last, step);
    if last >= x - x % 4 {
      BlocksGrow(x - x % 4, last);
    }
  }

  lemma RoundedDown(x: nat)
    ensures 0 <= x - x % 4 <= x && (x - x % 4) % 4 == 0
    ensures (x - x % 4) / LOW_BITS == x / LOW_BITS
  {
    assert x - x % 4 == x / 4 * 4;
  }

  lemma BlocksGrow(x: nat, y: nat)
    requires x <= y
    ensures x / LOW_BITS <= y / LOW_BITS
  {
  }

  /** Each of the 2^20 identifiers that show the time is drawn for some random number. */
  lemma EveryIdIsDrawn(last: nat, t: nat, id: nat) returns (rx: nat)
    requires ShowsTime(id, t) && id % 4 == 0 && id > last
    ensures rx < 0x1_0000_0000 && NextId(last, t, rx) == id
  {
    rx := SomeRandom(t, id % LOW_BITS);
    assert id == id / LOW_BITS * LOW_BITS + id % LOW_BITS;
    hide Randomized;
    assert Randomized(t, rx) == id;
  }

  /** Any low bits are made by some random number. */
  lemma SomeRandom(t: nat, low: nat) returns (rx: nat)
    requires low < LOW_BITS
    ensures rx < LOW_BITS && Randomized(t, rx) == t / LOW_BITS * LOW_BITS + low
  {
    hide XorBits, Pow2;
    Pow2At22();
    var a := t % LOW_BITS;
    rx := XorBits(low, a, 22);
    XorBitsTwice(low, a, 22);
    XorBitsCommute(rx, a, 22);
    SmallRemainder(rx);
  }

  lemma SmallRemainder(n: nat)
    requires n < LOW_BITS
    ensures n % LOW_BITS == n
  {
  }

  /** In real numbers: from just below the time that is shown to 2^22 above it */
  lemma IdNearTime(last: nat, t: nat, id: nat, time: real)
    requires t as real <= time < t as real + 1.0 && id > last
    requires ShowsTime(id, t) || (IsStepFrom(id, last) && last / LOW_BITS >= t / LOW_BITS)
    ensures id as real > time - 1.0 - LOW_BITS as real
    ensures id <= last + 8192 || id as real <= time + LOW_BITS as real
  {
    var low := t % LOW_BITS;
    assert t == t / LOW_BITS * LOW_BITS + low;
    assert id / LOW_BITS * LOW_BITS <= id && last / LOW_BITS * LOW_BITS <= last;
    assert id > t - LOW_BITS;
  }

  lemma TwoMoreFours(last: nat, step: nat)
    ensures last % 4 == 0 ==> (last + 8 * step) % 4 == 0
  {
    assert last + 8 * step == last + 4 * (2 * step);
  }

  // ---------- The difference to the clock of the server

  /** The difference that is kept once `diff` has been observed */
  function NextDifference(wasUpdated: bool, current: real, diff: real): real {
    if !wasUpdated || current + 0.0001 < diff then diff else current
  }

  /** The difference kept can be less than one just observed: here by 0.00005 seconds. */
  lemma SmallIncreaseIsMissed(current: real)
    ensures NextDifference(true, NextDifference(false, current, 1.0), 1.00005) == 1.0
  {
  }

  class AuthData {
    const checker: MessageIdDuplicateChecker
    var sessionId: nat
    var serverTimeDifference: real
    var wasUpdated: bool
    var lastMessageId: nat
    var seqNo: nat
    /** Differences seen since the last reset, and identifiers of accepted packets */
    ghost var observed: set<real>
    ghost var accepted: seq<nat>

    ghost predicate Valid()
      reads this, checker, checker.saved
    {
      && checker.Valid() && checker.maxSize == WINDOW
      && lastMessageId % 4 == 0 && seqNo % 2 == 0
      && (observed != {} ==> wasUpdated)
      && (forall d :: d in observed ==> d <= serverTimeDifference + 0.0001)
      && (forall i, j :: 0 <= i < j < |accepted| ==> accepted[i] != accepted[j])
      && (forall i :: 0 <= i < |accepted| ==>
            accepted[i] % 2 == 1 && Known(checker.saved[..checker.endPos], WINDOW, accepted[i]))
    }

    constructor (sessionId: nat)
      ensures Valid() && fresh(checker) && fresh(checker.saved) && this.sessionId == sessionId
      ensures checker.maxSize == 1000 && accepted == [] && observed == {} && lastMessageId == 0 && seqNo == 0
    {
      checker := new MessageIdDuplicateChecker(WINDOW);
      this.sessionId := sessionId;
      serverTimeDifference := 0.0;
      wasUpdated := false;
      lastMessageId := 0;
      seqNo := 0;
      observed := {};
      accepted := [];
    }

    function GetServerTime(now: real): real
      reads this
    {
      serverTimeDifference + now
    }

    // ---------- Outgoing messages

    method NextMessageId(now: real) returns (id: nat)
      requires Valid() && GetServerTime(now) >= 0.0
      modifies this`lastMessageId
      ensures Valid() && lastMessageId == id
      ensures id > old(lastMessageId) && id % 4 == 0
      ensures id <= old(lastMessageId) + 8192 || id as real <= GetServerTime(now) * SECOND + LOW_BITS as real
      ensures id as real > GetServerTime(now) * SECOND - 1.0 - LOW_BITS as real
      ensures var t := (GetServerTime(now) * SECOND).Floor;
              || ShowsTime(id, t)
              || (IsStepFrom(id, old(lastMessageId)) && old(lastMessageId) / LOW_BITS >= t / LOW_BITS)
      ensures old(lastMessageId) as real <= GetServerTime(now) * SECOND ==> IsValidOutboundMsgId(id, now)
    {
      var t := (GetServerTime(now) * SECOND).Floor;
      var rx: nat :| rx < 0x1_0000_0000;
      NextIdGrows(lastMessageId, t, rx);
      id := NextId(lastMessageId, t, rx);
      IdNearTime(lastMessageId, t, id, GetServerTime(now) * SECOND);
      lastMessageId := id;
    }

    method NextSeqNo(isContentRelated: bool) returns (no: nat)
      requires Valid()
      modifies this`seqNo
      ensures Valid()
      ensures no == old(seqNo) + (if isContentRelated then 1 else 0)
      ensures seqNo == old(seqNo) + (if isContentRelated then 2 else 0)
    {
      no := seqNo;
      if isContentRelated {
        no := no + 1;
        seqNo := seqNo + 2;
      }
    }

    predicate IsValidOutboundMsgId(id: nat, now: real)
      reads this
    {
      GetServerTime(now) - 150.0 < IdTime(id) < GetServerTime(now) + 30.0
    }

    /** An identifier may be sent from 30 seconds before its time until 150 seconds after it. */
    lemma OutboundWindow(id: nat, now: real)
      ensures IsValidOutboundMsgId(id, now)
              <==> -30.0 < GetServerTime(now) - id as real / 4294967296.0 < 150.0
    {
    }

    // ---------- The clock of the server

    method UpdateServerTimeDifference(diff: real) returns (updated: bool)
      requires Valid()
      modifies this`serverTimeDifference, this`wasUpdated, this`observed
      ensures Valid() && wasUpdated && observed == old(observed) + {diff}
      ensures serverTimeDifference == if updated then diff else old(serverTimeDifference)
      ensures old(wasUpdated) ==> serverTimeDifference >= old(serverTimeDifference)
      ensures serverTimeDifference == NextDifference(old(wasUpdated), old(serverTimeDifference), diff)
      ensures updated == (!old(wasUpdated) || old(serverTimeDifference) + 0.0001 < diff)
      ensures serverTimeDifference >= diff <==>
                !(old(wasUpdated) && old(serverTimeDifference) < diff <= old(serverTimeDifference) + 0.0001)
      ensures (forall d :: d in observed ==> d <= serverTimeDifference) <==>
                || updated
                || (&& (forall d :: d in old(observed) ==> d <= old(serverTimeDifference))
                    && diff <= old(serverTimeDifference))
    {
      observed := observed + {diff};
      if !wasUpdated {
        wasUpdated := true;
        serverTimeDifference := diff;
      } else if serverTimeDifference + 0.0001 < diff {
        serverTimeDifference := diff;
      } else {
        return false;
      }
      return true;
    }

    method ResetServerTimeDifference(diff: real)
      requires Valid()
      modifies this`serverTimeDifference, this`wasUpdated, this`observed
      ensures Valid() && observed == {} && !wasUpdated && serverTimeDifference == diff
    {
      observed := {};
      wasUpdated := false;
      serverTimeDifference := diff;
    }

    predicate IsValidInboundMsgId(id: nat, now: real)
      reads this
    {
      GetServerTime(now) - 300.0 < IdTime(id) < GetServerTime(now) + 30.0
    }

    /** A received identifier may be from 30 seconds before its time until 300 seconds after it. */
    lemma InboundWindow(id: nat, now: real)
      ensures IsValidInboundMsgId(id, now)
              <==> -30.0 < GetServerTime(now) - id as real / 4294967296.0 < 300.0
    {
    }

    // ---------- Incoming packets

    /** A packet that passes the first checks is refused for its time only when it is too old; it is never too new,
        for the clock has just been set forward to it. */
    method CheckPacket(packetSession: nat, id: nat, now: real) returns (status: PacketStatus, updated: bool)
      requires Valid() && sessionId != 0
      modifies this`serverTimeDifference, this`wasUpdated, this`observed, this`accepted, checker`endPos, checker.saved
      ensures Valid()
      ensures accepted == old(accepted) + if status == Accepted then [id] else []
      ensures status == WrongSession <==> packetSession != sessionId
      ensures status == NotFromServer <==> packetSession == sessionId && id % 2 == 0
      ensures status == Duplicate <==>
                && packetSession == sessionId && id % 2 == 1
                && ArrayCheck(old(checker.saved[..checker.endPos]), WINDOW, id).status != Ok
      ensures status == TooOldOrTooNew ==> IdTime(id) <= GetServerTime(now) - 300.0
      ensures status == Accepted ==> GetServerTime(now) - 300.0 < IdTime(id)
      ensures status in {TooOldOrTooNew, Accepted} ==>
                var diff := Seconds(id) as real - now;
                && wasUpdated && observed == old(observed) + {diff}
                && serverTimeDifference == NextDifference(old(wasUpdated), old(serverTimeDifference), diff)
                && updated == (!old(wasUpdated) || old(serverTimeDifference) + 0.0001 < diff)
      ensures status !in {TooOldOrTooNew, Accepted} ==>
                && wasUpdated == old(wasUpdated) && observed == old(observed)
                && serverTimeDifference == old(serverTimeDifference) && !updated
    {
      hide Known, ArrayCheck, Sorted;
      updated := false;
      if sessionId != packetSession {
        return WrongSession, updated;
      }
      if id % 2 == 0 {
        return NotFromServer, updated;
      }
      var isNew := CheckDuplicate(id);
      if !isNew {
        return Duplicate, updated;
      }
      updated := UpdateServerTimeDifference(Seconds(id) as real - now);
      IdTimeIsClose(id);
      assert Seconds(id) as real - now in observed;
      if wasUpdated && !IsValidInboundMsgId(id, now) {
        return TooOldOrTooNew, updated;
      }
      accepted := accepted + [id];
      return Accepted, updated;
    }

    method CheckDuplicate(id: nat) returns (ok: bool)
      requires Valid()
      modifies checker`endPos, checker.saved
      ensures Valid() && ok == (ArrayCheck(old(checker.saved[..checker.endPos]), WINDOW, id).status == Ok)
      ensures ok ==> id !in accepted && Known(checker.saved[..checker.endPos], WINDOW, id)
    {
      hide Known, ArrayCheck;
      ghost var w := checker.saved[..checker.endPos];
      var status := checker.Check(id);
      forall i | 0 <= i < |accepted|
        ensures Known(checker.saved[..checker.endPos], WINDOW, accepted[i])
        ensures status == Ok ==> accepted[i] != id
      {
        KnownStaysKnown(w, WINDOW, id, accepted[i]);
        if accepted[i] == id {
          KnownIsRefused(w, WINDOW, id);
        }
      }
      if status == Ok {
        AcceptedBecomesKnown(w, WINDOW, id);
      }
      return status == Ok;
    }
  }
}
