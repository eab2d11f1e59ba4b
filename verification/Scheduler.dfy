/** Delayed sends: a list of messages with absolute due times, scanned on every tick. */
module Scheduler {
  import opened Basics
  import opened LocoNet
  import opened Time

  datatype PendingSend = PendingSend(message: Frame, dueAt: nat)

  /** The sends a scan at `now` releases, in list order, and those it leaves, in list order. */
  function Due(pending: seq<PendingSend>, now: nat): seq<PendingSend>
  {
    if pending == [] then []
    else if pending[0].dueAt > now then Due(pending[1..], now)
    else [pending[0]] + Due(pending[1..], now)
  }

  function Kept(pending: seq<PendingSend>, now: nat): seq<PendingSend>
  {
    if pending == [] then []
    else if pending[0].dueAt > now then [pending[0]] + Kept(pending[1..], now)
    else Kept(pending[1..], now)
  }

  function Messages(sends: seq<PendingSend>): seq<Frame>
  {
    seq(|sends|, i requires 0 <= i < |sends| => sends[i].message)
  }

  /** The subsequence whose messages are of one kind. */
  function Only(sends: seq<PendingSend>, kind: Frame -> bool): seq<PendingSend>
  {
    if sends == [] then []
    else if kind(sends[0].message) then [sends[0]] + Only(sends[1..], kind)
    else Only(sends[1..], kind)
  }

  predicate InDueOrder(sends: seq<PendingSend>)
  {
    forall i, j | 0 <= i < j < |sends| :: sends[i].dueAt <= sends[j].dueAt
  }

  // ------------------------------------------------------ list lemmas

  lemma KeptCons(head: PendingSend, tail: seq<PendingSend>, now: nat)
    ensures Kept([head] + tail, now) == if head.dueAt > now then [head] + Kept(tail, now) else Kept(tail, now)
  {
  }

  lemma MessagesSnoc(sends: seq<PendingSend>, x: PendingSend)
    ensures Messages(sends + [x]) == Messages(sends) + [x.message]
  {
  }

  /** In the middle of a scan the list is what was kept, then what is still to be looked at. */
  lemma ScanPosition(all: seq<PendingSend>, seen: nat, kept: seq<PendingSend>)
    requires seen < |all|
    ensures var list, it := kept + all[seen..], |kept|;
            && list[it] == all[seen]
            && list == (kept + [all[seen]]) + all[seen + 1..]
            && list[..it] + list[it + 1..] == kept + all[seen + 1..]
  {
  }

  lemma {:induction false} ScanSnoc(a: seq<PendingSend>, x: PendingSend, now: nat)
    ensures Kept(a + [x], now) == if x.dueAt > now then Kept(a, now) + [x] else Kept(a, now)
    ensures Due(a + [x], now) == if x.dueAt > now then Due(a, now) else Due(a, now) + [x]
  {
    if a != [] {
      assert (a + [x])[1..] == a[1..] + [x];
      ScanSnoc(a[1..], x, now);
    }
  }

  lemma ScanOne(all: seq<PendingSend>, seen: nat, now: nat)
    requires seen < |all|
    ensures var x := all[seen];
            && Kept(all[..seen + 1], now) == (if x.dueAt > now then Kept(all[..seen], now) + [x] else Kept(all[..seen], now))
            && Due(all[..seen + 1], now) == (if x.dueAt > now then Due(all[..seen], now) else Due(all[..seen], now) + [x])
  {
    TakeSnoc(all, seen);
    ScanSnoc(all[..seen], all[seen], now);
  }

  /** The middle of a scan-and-erase pass over `all`: `seen` sends are looked at, those kept stand before
      position `it` of the list and those not looked at from it on. */
  predicate Scanning(all: seq<PendingSend>, now: nat, seen: nat, it: nat, list: seq<PendingSend>,
                     kept: seq<PendingSend>, released: seq<PendingSend>)
  {
    && seen <= |all| && it == |kept| && list == kept + all[seen..]
    && kept == Kept(all[..seen], now) && released == Due(all[..seen], now)
  }

  lemma ScanStarts(all: seq<PendingSend>, now: nat)
    ensures Scanning(all, now, 0, 0, all, [], [])
  {
    assert all[0..] == all && [] + all == all;
  }

  lemma ScanLooks(all: seq<PendingSend>, now: nat, seen: nat, it: nat, list: seq<PendingSend>,
                  kept: seq<PendingSend>, released: seq<PendingSend>)
    requires Scanning(all, now, seen, it, list, kept, released) && it < |list|
    ensures seen < |all| && list[it] == all[seen]
    ensures all[seen].dueAt > now ==> Scanning(all, now, seen + 1, it + 1, list, kept + [all[seen]], released)
    ensures all[seen].dueAt <= now ==>
              Scanning(all, now, seen + 1, it, list[..it] + list[it + 1..], kept, released + [all[seen]])
  {
    ScanPosition(all, seen, kept);
    ScanOne(all, seen, now);
  }

  lemma ScanEnds(all: seq<PendingSend>, now: nat, seen: nat, it: nat, list: seq<PendingSend>,
                 kept: seq<PendingSend>, released: seq<PendingSend>)
    requires Scanning(all, now, seen, it, list, kept, released) && it >= |list|
    ensures list == Kept(all, now) && released == Due(all, now)
  {
    assert all[..seen] == all;
  }

  lemma {:induction false} OnlyAppend(a: seq<PendingSend>, b: seq<PendingSend>, kind: Frame -> bool)
    ensures Only(a + b, kind) == Only(a, kind) + Only(b, kind)
  {
    if a == [] {
      assert a + b == b;
    } else {
      assert (a + b)[1..] == a[1..] + b;
      OnlyAppend(a[1..], b, kind);
    }
  }

  lemma {:induction false} OnlyMembers(sends: seq<PendingSend>, kind: Frame -> bool)
    ensures forall s :: s in Only(sends, kind) <==> s in sends && kind(s.message)
  {
    if sends != [] { OnlyMembers(sends[1..], kind); }
  }

  lemma {:induction false} DueMembers(sends: seq<PendingSend>, now: nat)
    ensures forall s :: s in Due(sends, now) <==> s in sends && s.dueAt <= now
    ensures forall s :: s in Kept(sends, now) <==> s in sends && s.dueAt > now
  {
    if sends != [] { DueMembers(sends[1..], now); }
  }

  /** A scan neither loses nor duplicates a send. */
  lemma {:induction false} ScanPartitions(pending: seq<PendingSend>, now: nat)
    ensures multiset(Due(pending, now)) + multiset(Kept(pending, now)) == multiset(pending)
  {
    if pending != [] {
      ScanPartitions(pending[1..], now);
      assert pending == [pending[0]] + pending[1..];
    }
  }

  lemma OnlyCons(head: PendingSend, tail: seq<PendingSend>, kind: Frame -> bool)
    ensures Only([head] + tail, kind) == if kind(head.message) then [head] + Only(tail, kind) else Only(tail, kind)
  {
  }

  /** If the sends of one kind wait in due order, a scan releases a prefix of them. */
  lemma {:induction false} ScanTakesPrefixOfKind(pending: seq<PendingSend>, kind: Frame -> bool, now: nat)
    requires InDueOrder(Only(pending, kind))
    ensures Only(Due(pending, now), kind) + Only(Kept(pending, now), kind) == Only(pending, kind)
  {
    if pending != [] {
      var head, tail := pending[0], pending[1..];
      OnlyCons(head, Kept(tail, now), kind);
      OnlyCons(head, Due(tail, now), kind);
      if kind(head.message) {
        assert Only(pending, kind)[1..] == Only(tail, kind);
      }
      ScanTakesPrefixOfKind(tail, kind, now);
      if head.dueAt > now {
        if kind(head.message) {
          LaterNotDue(head, tail, kind, now);
        }
      } else {
        Regroup([head], Only(Due(tail, now), kind), Only(Kept(tail, now), kind));
      }
    }
  }

  lemma LaterNotDue(head: PendingSend, tail: seq<PendingSend>, kind: Frame -> bool, now: nat)
    requires InDueOrder([head] + Only(tail, kind)) && head.dueAt > now
    ensures Only(Due(tail, now), kind) == []
  {
    var all := [head] + Only(tail, kind);
    forall s | s in Only(tail, kind) ensures s.dueAt > now {
      var i :| 0 <= i < |Only(tail, kind)| && Only(tail, kind)[i] == s;
      assert all[0].dueAt <= all[i + 1].dueAt;
    }
    NoneDue(tail, kind, now);
  }

  lemma {:induction false} NoneDue(pending: seq<PendingSend>, kind: Frame -> bool, now: nat)
    requires forall s | s in Only(pending, kind) :: s.dueAt > now
    ensures Only(Due(pending, now), kind) == []
  {
    if pending != [] {
      var head, tail := pending[0], pending[1..];
      NoneDue(tail, kind, now);
      if head.dueAt <= now {
        OnlyCons(head, Due(tail, now), kind);
        OnlyMembers(pending, kind);
        assert head in pending && !kind(head.message);
      }
    }
  }

  // ------------------------------------------------------- whole runs

  /** What happens to one scheduler: a delayed send is accepted, or a scan reads the clock. */
  datatype Op = Accept(send: PendingSend) | Scan(now: nat)

  function PendingAfter(ops: seq<Op>): seq<PendingSend>
  {
    if ops == [] then []
    else
      var before := PendingAfter(ops[..|ops| - 1]);
      match ops[|ops| - 1]
      case Accept(send) => before + [send]
      case Scan(now) => Kept(before, now)
  }

  /** The send accepted by operation i is released by a scan among operations i+1 .. end-1. */
  predicate ReleasedBefore(ops: seq<Op>, i: nat, end: nat)
    requires i < end <= |ops| && ops[i].Accept?
  {
    exists j | i < j < end :: ops[j].Scan? && ops[j].now >= ops[i].send.dueAt
  }

  /** Independent reading of the history: the sends accepted from operation i on that no scan
      among the first `end` operations has found due. */
  function Waiting(ops: seq<Op>, i: nat, end: nat): seq<PendingSend>
    requires i <= end <= |ops|
    decreases end - i
  {
    if i == end then []
    else if ops[i].Accept? && !ReleasedBefore(ops, i, end) then [ops[i].send] + Waiting(ops, i + 1, end)
    else Waiting(ops, i + 1, end)
  }

  lemma {:induction false} WaitingStep(ops: seq<Op>, i: nat, end: nat)
    requires i <= end < |ops|
    ensures Waiting(ops, i, end + 1)
            == match ops[end]
               case Accept(send) => Waiting(ops, i, end) + [send]
               case Scan(now) => Kept(Waiting(ops, i, end), now)
    decreases end - i
  {
    if i < end {
      WaitingStep(ops, i + 1, end);
      var rest := Waiting(ops, i + 1, end);
      if ops[i].Accept? {
        ReleasedStep(ops, i, end);
        if ops[end].Scan? {
          KeptCons(ops[i].send, rest, ops[end].now);
        } else {
          Regroup([ops[i].send], rest, [ops[end].send]);
        }
      }
    }
  }

  lemma ReleasedStep(ops: seq<Op>, i: nat, end: nat)
    requires i < end < |ops| && ops[i].Accept?
    ensures ReleasedBefore(ops, i, end + 1)
            <==> ReleasedBefore(ops, i, end) || (ops[end].Scan? && ops[end].now >= ops[i].send.dueAt)
  {
  }

  /** On every run, what the scan-and-erase loop has left in the list is exactly the accepted
      sends, in order of acceptance, that no scan since their acceptance has found due. */
  lemma {:induction false} PendingIsWhatNoScanReleased(ops: seq<Op>, end: nat)
    requires end <= |ops|
    ensures PendingAfter(ops[..end]) == Waiting(ops, 0, end)
  {
    if end > 0 {
      PendingIsWhatNoScanReleased(ops, end - 1);
      assert ops[..end][..end - 1] == ops[..end - 1];
      WaitingStep(ops, 0, end - 1);
    }
  }

  /** Hence each accepted send leaves exactly once: at the first later scan not before its due
      time. Operation `end` is a scan; it releases exactly the sends still waiting and due. */
  lemma EachSendLeavesAtFirstDueScan(ops: seq<Op>, end: nat, i: nat)
    requires i < end < |ops| && ops[end].Scan? && ops[i].Accept?
    ensures Due(PendingAfter(ops[..end]), ops[end].now) == Due(Waiting(ops, 0, end), ops[end].now)
    ensures ReleasedBefore(ops, i, end + 1) && !ReleasedBefore(ops, i, end)
            ==> ops[i].send in Due(PendingAfter(ops[..end]), ops[end].now)
    ensures forall s | s in Due(PendingAfter(ops[..end]), ops[end].now) ::
              exists k | 0 <= k < end :: ops[k] == Accept(s) && !ReleasedBefore(ops, k, end) && s.dueAt <= ops[end].now
  {
    PendingIsWhatNoScanReleased(ops, end);
    DueMembers(Waiting(ops, 0, end), ops[end].now);
    WaitingMembers(ops, 0, end);
    ReleasedStep(ops, i, end);
  }

  lemma {:induction false} WaitingMembers(ops: seq<Op>, i: nat, end: nat)
    requires i <= end <= |ops|
    ensures forall k | i <= k < end :: ops[k].Accept? && !ReleasedBefore(ops, k, end) ==> ops[k].send in Waiting(ops, i, end)
    ensures forall s | s in Waiting(ops, i, end) ::
              exists k | i <= k < end :: ops[k] == Accept(s) && !ReleasedBefore(ops, k, end)
    decreases end - i
  {
    if i < end { WaitingMembers(ops, i + 1, end); }
  }

  /** The scan compares wrapped absolute times. For a send accepted at most `now` ago, it agrees with
      the comparison of true times exactly when due time and scan lie in the same 2^32 ms epoch. */
  lemma WrappedScanAgreesIffSameEpoch(dueAt: nat, now: nat)
    requires -CLOCK_MODULUS < dueAt - now < CLOCK_MODULUS
    ensures (dueAt % CLOCK_MODULUS > now % CLOCK_MODULUS <==> dueAt > now)
            <==> dueAt / CLOCK_MODULUS == now / CLOCK_MODULUS
  {
  }
}
