/** When the journal ring can refuse more than one frame. src/feed_handler/journal_thread.h says the first
    refusal latches the failure, so later frames are not offered. That fails exactly when the overflow's
    claim of the latch finds it claimed by the journal thread, whose own failure is not published yet. */
module ThreadedRefusals {
  import opened BookTypes
  import opened Bytes
  import opened JournalHeader
  import opened ThreadedCapture
  import opened ThreadedRun

  // ------------------------------------------------------------------- a claim that is won or comes late

  /** No frame will be offered to the ring any more. */
  predicate Spent(s: System) {
    s.producer.Publishing? || (s.latch.Failed? && !s.producer.Enqueueing?)
  }

  lemma FailedLeavesNoOffer(s: System, action: Action)
    requires Enabled(s, action) && !OfJournalThread(action) && s.latch.Failed? && !s.producer.Enqueueing?
    ensures !Next(s, action).producer.Enqueueing?
  {
    match action
    case TellDisconnect => assert !AfterTellDisconnect(s).producer.Enqueueing?;
    case NextConnect => assert !AfterNextConnect(s).producer.Enqueueing?;
    case ReadFailed => assert !AfterReadFailed(s).producer.Enqueueing?;
    case ClaimOverflow => assert !AfterClaimOverflow(s).producer.Enqueueing?;
    case _ =>
  }

  lemma SpentStays(s: System, action: Action)
    requires Spent(s) && Enabled(s, action)
    ensures Spent(Next(s, action)) && !action.Enqueue?
  {
    if OfJournalThread(action) {
      hide Next;
      ConsumerKeeps(s, action);
    } else if s.producer.Publishing? {
      assert action == PublishOverflow;
    } else {
      hide Next;
      FailedLeavesNoOffer(s, action);
      LatchStaysFailed(s, action);
    }
  }

  lemma LatchStaysFailed(s: System, action: Action)
    requires Enabled(s, action) && s.latch.Failed?
    ensures Next(s, action).latch.Failed?
  {
    hide Next;
    if action.OpenFile? {
      OpeningKeepsTheLatch(s, action);
    } else {
      WhatAStepKeeps(s, action);
    }
  }

  lemma OpeningKeepsTheLatch(s: System, action: Action)
    requires Enabled(s, action) && action.OpenFile?
    ensures Next(s, action).latch == s.latch
  {
    hide Keeps;
  }

  lemma {:induction false} NoRefusalOnceSpent(exchange: bytes, actions: seq<Action>, more: seq<Action>)
    requires Execute(exchange, actions).Some? && Spent(Execute(exchange, actions).value)
    requires Execute(exchange, actions + more).Some?
    ensures Spent(Execute(exchange, actions + more).value) && Refused(actions + more) == Refused(actions)
    decreases |more|
  {
    hide Next, Enabled, Spent, Initial;
    if more == [] {
      assert actions + more == actions;
    } else {
      var all, front := actions + more, more[..|more| - 1];
      assert all[..|all| - 1] == actions + front;
      NoRefusalOnceSpent(exchange, actions, front);
      SpentStays(Execute(exchange, actions + front).value, more[|more| - 1]);
    }
  }

  lemma ClaimSpends(s: System)
    requires s.producer.Failing? && !s.latch.Claimed?
    ensures Spent(Next(s, ClaimOverflow))
  {
  }

  // ------------------------------------------------------------------------------- a claim that is lost

  /** From any state in which the claim is lost, the next frame can be refused as well. */
  lemma RefusesOneMore(exchange: bytes, actions: seq<Action>, s: System) returns (longer: seq<Action>, after: System)
    requires Execute(exchange, actions) == Some(s) && s.producer.Sinking? && s.journalOpen && s.files != []
    requires s.latch == Claimed && s.sequence + 1 < 0x1_0000_0000_0000_0000
    ensures Execute(exchange, longer) == Some(after) && Refused(longer) == Refused(actions) + 1
    ensures after.producer.Failing? && after.latch == Claimed
    ensures actions <= longer
  {
    hide Execute, Refused, Keeps, Next, Enabled;
    longer, after := Offers(exchange, actions, s);
    EnqueueRefuses(after);
    longer, after := Do(exchange, longer, after, Enqueue(false));
  }

  lemma EnqueueRefuses(s: System)
    requires s.producer.Enqueueing? && s.files != []
    ensures Enabled(s, Enqueue(false))
    ensures Next(s, Enqueue(false)).producer.Failing? && Next(s, Enqueue(false)).latch == s.latch
  {
  }

  lemma Offers(exchange: bytes, actions: seq<Action>, s: System) returns (longer: seq<Action>, after: System)
    requires Execute(exchange, actions) == Some(s) && s.producer.Sinking? && s.journalOpen && s.files != []
    requires s.latch == Claimed && s.sequence + 1 < 0x1_0000_0000_0000_0000
    ensures Execute(exchange, longer) == Some(after) && Refused(longer) == Refused(actions)
    ensures after.producer.Enqueueing? && after.files != [] && after.latch == Claimed
    ensures actions <= longer
  {
    hide Execute, Refused, Keeps;
    longer, after := Do(exchange, actions, s, TellFrame);
    longer, after := Do(exchange, longer, after, Action.WireMessage([], 0, UnknownSource));
    longer, after := Do(exchange, longer, after, ReadFailed);
  }

  // --------------------------------------------------------------------------------- the exact condition

  ghost predicate RefusesAgain(exchange: bytes, actions: seq<Action>, longer: seq<Action>) {
    actions <= longer && Execute(exchange, longer).Some? && Refused(longer) > Refused(actions)
  }

  /** After a refusal another one can follow if and only if the overflow's claim finds the latch claimed by
      the journal thread: in every run that has just refused a frame and is about to claim. */
  lemma {:induction false} AnotherRefusalExactlyWhenClaimed(exchange: bytes, actions: seq<Action>)
    requires Execute(exchange, actions).Some? && Execute(exchange, actions).value.producer.Failing?
    requires Execute(exchange, actions).value.sequence + 1 < 0x1_0000_0000_0000_0000
    ensures Execute(exchange, actions).value.latch.Claimed? <==>
            exists longer: seq<Action> :: RefusesAgain(exchange, actions + [ClaimOverflow], longer)
  {
    hide Execute, Refused, Keeps, Inv;
    var s := Execute(exchange, actions).value;
    var claimed, after := Do(exchange, actions, s, ClaimOverflow);
    if s.latch.Claimed? {
      AlwaysInv(exchange, actions);
      InHandIsOpen(s);
      var longer, t := RefusesOneMore(exchange, claimed, after);
      assert RefusesAgain(exchange, claimed, longer);
    } else {
      ClaimSpends(s);
      forall longer: seq<Action> | RefusesAgain(exchange, claimed, longer) ensures false {
        assert longer == claimed + longer[|claimed|..];
        NoRefusalOnceSpent(exchange, claimed, longer[|claimed|..]);
      }
    }
  }

  lemma InHandIsOpen(s: System)
    requires Inv(s) && s.producer.Failing?
    ensures s.journalOpen && s.files != []
  {
    hide LatchOk, RingOk, FilesOk, TraceOk, StoryOk;
  }

  /** Somewhere in the run an overflow's claim found the latch claimed. */
  predicate Contended(exchange: bytes, actions: seq<Action>) {
    actions != [] &&
    var front, last := actions[..|actions| - 1], actions[|actions| - 1];
    Contended(exchange, front)
    || (last == ClaimOverflow && Execute(exchange, front).Some? && Execute(exchange, front).value.latch.Claimed?)
  }

  /** A run without such a claim has at most one refusal: one just made, or one that was the last. */
  lemma {:induction false} OneRefusalUnlessContended(exchange: bytes, actions: seq<Action>)
    requires Execute(exchange, actions).Some? && !Contended(exchange, actions)
    ensures Refused(actions) <= 1
    ensures var s := Execute(exchange, actions).value; Refused(actions) == 1 ==> s.producer.Failing? || Spent(s)
  {
    hide Next, Enabled, Spent, Initial;
    if actions != [] {
      var front, last := actions[..|actions| - 1], actions[|actions| - 1];
      OneRefusalUnlessContended(exchange, front);
      var s := Execute(exchange, front).value;
      if Refused(front) == 1 {
        RefusedStays(s, last);
      } else if last == Enqueue(false) {
        JustRefused(s);
      }
    }
  }

  lemma JustRefused(s: System)
    requires Enabled(s, Enqueue(false))
    ensures Next(s, Enqueue(false)).producer.Failing?
  {
  }

  lemma RefusedStays(s: System, action: Action)
    requires Enabled(s, action) && (s.producer.Failing? || Spent(s))
    requires action == ClaimOverflow ==> !s.latch.Claimed?
    ensures var t := Next(s, action); t.producer.Failing? || Spent(t)
    ensures action != Enqueue(false)
  {
    hide Keeps, Spent, LogOf, WithLast, Last, FileAfterWrite;
    if Spent(s) {
      SpentStays(s, action);
    } else if action == ClaimOverflow {
      ClaimSpends(s);
    } else {
      OnlyClaimMoves(s, action);
    }
  }

  lemma OnlyClaimMoves(s: System, action: Action)
    requires Enabled(s, action) && s.producer.Failing? && action != ClaimOverflow
    ensures Next(s, action).producer == s.producer && action != Enqueue(false)
  {
    hide Next;
    assert OfJournalThread(action);
    ConsumerKeeps(s, action);
  }

  /** There is such a run: the latch is claimed for a failed write, and two frames are refused. */
  lemma TwoRefusals(exchange: bytes) returns (actions: seq<Action>)
    ensures Execute(exchange, actions).Some? && Refused(actions) >= 2
  {
    hide Execute, Refused, Keeps;
    actions := ClaimsAFailure(exchange);
    var s := FailureClaimed(exchange);
    actions, s := Do(exchange, actions, s, Action.WireMessage([], 0, UnknownSource));
    actions, s := Do(exchange, actions, s, ReadFailed);
    actions, s := Do(exchange, actions, s, Enqueue(false));
    actions, s := Do(exchange, actions, s, ClaimOverflow);
    actions, s := RefusesOneMore(exchange, actions, s);
  }
}
