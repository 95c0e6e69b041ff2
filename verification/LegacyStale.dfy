/** What old messages still in the link do to an exchange: NACKs and requests are not matched with the update awaited. */
module LegacyStale {
  import opened Runs
  import opened UpdateFrames
  import opened Batches
  import opened LegacyModel
  import opened LegacyChain
  import opened LegacyLeak

  /** The answer makes the sender report the update on offer as refused. */
  predicate ReportsRefusal(s: Sender, m: Message) {
    HandleAnswer(s, m).1 == Nacked
  }

  /** The request ends the exchange: it is refused. */
  predicate EndsExchange(s: Sender, m: Message, cap: nat) {
    LegalMessage(m) && m.content.Wanted? && s.phase != Idle && HandleRequest(s, m, cap).state.phase == Idle
  }

  // ---------- A straight exchange ----------

  lemma RefusalReported(s: Sender, m: Message)
    requires s.phase == WaitAck && s.id != ANY_RECEIVER && s.id != 0
    ensures ReportsRefusal(s, m) <==> m.content.Refused? && m.header.receiver == s.id
  {}

  lemma RequestRefused(s: Sender, m: Message, cap: nat)
    requires s.phase == WaitAck && s.id != ANY_RECEIVER && s.id != 0 && cap >= 18 && LegalMessage(m)
    ensures EndsExchange(s, m, cap) <==>
              m.content.Wanted? && m.header.receiver == s.id && m.content != Wanted(s.update.id, s.update.from)
  {}

  /**
   An update goes through: it is given, announced, asked for, sent and applied.
   Right then, some message in the link makes the sender report a refusal
   exactly if a NACK addressed to it was in the link before all that, and some
   request ends the exchange exactly if a request for anything else was.
   */
  lemma StraightExchange(s: System, u: Update, cap: nat) returns (v: System)
    requires ReadyFor(s, u, cap)
    ensures Reaches(Step, Anything, s, v) && v.done == s.done + [u] && v.confirmed == s.confirmed && s.net <= v.net
    ensures v.sender.phase == WaitAck && v.sender.update == u && v.sender.id == s.sender.id && u in v.given
    ensures (exists m :: m in v.net && ReportsRefusal(v.sender, m)) <==>
              exists m :: m in s.net && m.content.Refused? && m.header.receiver == s.sender.id
    ensures (exists m :: m in v.net && EndsExchange(v.sender, m, cap)) <==>
              exists m :: m in s.net && LegalMessage(m) && m.content.Wanted? && m.header.receiver == s.sender.id
                          && m.content != Wanted(u.id, u.from)
  {
    ReachesSelf(Step, Anything, s);
    var t, b, _ := BatchSent(s, s, u, cap);
    var a;
    v, a := BatchSucceeds(s, s, t, u, b, cap);
    forall m | m in v.net
      ensures ReportsRefusal(v.sender, m) <==> m.content.Refused? && m.header.receiver == s.sender.id
    {
      RefusalReported(v.sender, m);
    }
    forall m | m in v.net && LegalMessage(m)
      ensures EndsExchange(v.sender, m, cap) <==>
                m.content.Wanted? && m.header.receiver == s.sender.id && m.content != Wanted(u.id, u.from)
    {
      RequestRefused(v.sender, m, cap);
    }
  }

  // ---------- It happens, and is final ----------

  /**
   The first of two updates is asked for, sent and refused; the second is
   asked for, sent and applied. The NACK of the first, delivered once more, or
   its request does for the second.
   */
  lemma AppliedButRefused(s: System, first: Update, second: Update, k: nat, cap: nat)
    returns (v: System, nack: Message, request: Message)
    requires ReadyFor(s, first, cap) && ReadyFor(s, second, cap) && first.id != second.id && k <= |Calls(first)|
    ensures Reaches(Step, Anything, s, v) && second in v.done && v.confirmed == s.confirmed
    ensures v.sender.phase == WaitAck && v.sender.update == second && second in v.given
    ensures nack in v.net && nack.content.Refused? && nack.content.id == first.id && ReportsRefusal(v.sender, nack)
    ensures request in v.net && request.content == Wanted(first.id, s.receiver.version)
            && EndsExchange(v.sender, request, cap)
  {
    ReachesSelf(Step, Anything, s);
    var t, b, q;
    t, b, request := BatchSent(s, s, first, cap);
    q, nack := BatchFails(s, s, t, first, b, k, cap);
    v := StraightExchange(q, second, cap);
    ReachesOn(Step, Anything, s, q, v);
    RefusalReported(v.sender, nack);
    RequestRefused(v.sender, request, cap);
  }

  /** The sender awaits update `u` no more; its id is used up. */
  predicate Left(s: System, u: Update) {
    u in s.given && (s.sender.phase == Idle || s.sender.update.id != u.id)
  }

  /** And has not reported it as applied. */
  predicate Abandoned(s: System, u: Update) {
    Left(s, u) && u !in s.confirmed
  }

  lemma AbandonedStep(s: System, u: Update, e: Event)
    requires Abandoned(s, u)
    ensures Abandoned(Step(s, e), u)
  {}

  /** An exchange ended that way stays unreported: no later run reports the update as applied. */
  lemma RefusalIsFinal(s: System, u: Update, e: Event, es: seq<Event>)
    requires u in s.given && u !in s.confirmed && s.sender.update == u
    requires (e.AnswerIn? && e.m in s.net && ReportsRefusal(s.sender, e.m))
             || (e.RequestIn? && e.m in s.net && EndsExchange(s.sender, e.m, e.cap))
    ensures u !in Run(Step, Step(s, e), es).confirmed
  {
    var abandoned := s => Abandoned(s, u);
    forall s, e | Abandoned(s, u) ensures Abandoned(Step(s, e), u) {
      AbandonedStep(s, u, e);
    }
    AlwaysTrue(Step, Anything, Step(s, e), es);
    RunPreserves(Step, abandoned, Anything, Step(s, e), es);
  }
}
