/** What becomes of a delivered message. */
module Consumer {
  import opened Text

  /** How a handler ends: Permanent marks an error no retry can cure. */
  datatype HandlerResult = Success | Permanent | Failed | Panicked

  /** What the server is told: acknowledge, or deliver again. */
  datatype Verdict = Ack | Retry

  /** dispatch: `registered` is whether the topic has a handler, `archiveOk` whether forwarding to the failed
      topic works; the second result is whether the message was forwarded. */
  function Dispatch(registered: bool, result: HandlerResult, archiveOk: bool): (Verdict, bool) {
    if !registered then (Ack, false)
    else match result
    case Success => (Ack, false)
    case Permanent => if archiveOk then (Ack, true) else (Retry, false)
    case Failed => (Retry, false)
    case Panicked => (Retry, false)
  }

  // ------------------------------------------------------------------ one message, delivered over and over

  datatype Attempt = Attempt(result: HandlerResult, archiveOk: bool)

  /** Whether the server still holds the message for redelivery, how often its handling succeeded, how often it
      was forwarded. */
  datatype Fate = Fate(held: bool, handled: nat, kept: nat)

  /** Deliveries may go on after an acknowledgement; one is enough for the message to be let go. */
  function FateAfter(attempts: seq<Attempt>): Fate {
    if attempts == [] then Fate(true, 0, 0)
    else
      var a := attempts[|attempts| - 1];
      var fate := FateAfter(attempts[..|attempts| - 1]);
      var (verdict, kept) := Dispatch(true, a.result, a.archiveOk);
      Fate(fate.held && verdict == Retry, fate.handled + (if a.result == Success then 1 else 0), fate.kept + (if kept then 1 else 0))
  }

  predicate InVain(a: Attempt) {
    a.result == Failed || a.result == Panicked || (a.result == Permanent && !a.archiveOk)
  }

  /** The attempts that handled the message or kept it. */
  function Effective(attempts: seq<Attempt>): set<nat> {
    set i | 0 <= i < |attempts| && !InVain(attempts[i])
  }

  lemma EffectiveSnoc(attempts: seq<Attempt>)
    requires attempts != []
    ensures var n := |attempts| - 1;
            |Effective(attempts)| == |Effective(attempts[..n])| + if InVain(attempts[n]) then 0 else 1
  {
    var n := |attempts| - 1;
    forall i | 0 <= i < n ensures attempts[..n][i] == attempts[i] {}
    assert Effective(attempts) == Effective(attempts[..n]) + if InVain(attempts[n]) then {} else {n};
  }

  /** A message is acknowledged when nobody here wants it, when its handler succeeded, and when an error no retry can
      cure has been kept in the failed topic; only then is it forwarded. */
  lemma AcknowledgedExactlyFor(registered: bool, result: HandlerResult, archiveOk: bool)
    ensures var (verdict, kept) := Dispatch(registered, result, archiveOk);
            && (verdict == Ack <==> !registered || result == Success || (result == Permanent && archiveOk))
            && (kept <==> registered && result == Permanent && archiveOk)
  {
  }

  function With(attempts: seq<Attempt>, a: Attempt): set<nat> { set i | 0 <= i < |attempts| && attempts[i] == a }

  lemma WithSnoc(attempts: seq<Attempt>, a: Attempt)
    requires attempts != []
    ensures var n := |attempts| - 1;
            |With(attempts, a)| == |With(attempts[..n], a)| + if attempts[n] == a then 1 else 0
  {
    var n := |attempts| - 1;
    forall i | 0 <= i < n ensures attempts[..n][i] == attempts[i] {}
    assert With(attempts, a) == With(attempts[..n], a) + if attempts[n] == a then {n} else {};
  }

  /** A message of a subscribed topic is let go exactly when it was handled, or kept in the failed topic, at
      least once: it is held exactly while every attempt is in vain. Each attempt that is not in vain handles
      or keeps it once more, after an acknowledgement as before: it is handled as often as its handler succeeds, and
      kept as often as an incurable error of the handler's can be forwarded. */
  lemma {:induction false} LetGoExactlyForACause(attempts: seq<Attempt>)
    ensures FateAfter(attempts).held <==> Effective(attempts) == {}
    ensures FateAfter(attempts).handled + FateAfter(attempts).kept == |Effective(attempts)|
    ensures FateAfter(attempts).handled == |With(attempts, Attempt(Success, true))| + |With(attempts, Attempt(Success, false))|
    ensures FateAfter(attempts).kept == |With(attempts, Attempt(Permanent, true))|
  {
    if attempts == [] {
      assert Effective(attempts) == {};
      forall a ensures With(attempts, a) == {} {}
    } else {
      EffectiveSnoc(attempts);
      WithSnoc(attempts, Attempt(Success, true));
      WithSnoc(attempts, Attempt(Success, false));
      WithSnoc(attempts, Attempt(Permanent, true));
      LetGoExactlyForACause(attempts[..|attempts| - 1]);
    }
  }

  datatype Subscription = Subscription(topic: string, handler: nat)

  class Registry {
    var entries: seq<Subscription>

    constructor ()
      ensures entries == []
    {
      entries := [];
    }

    method Subscribe(topic: string, handler: nat)
      modifies this
      ensures entries == old(entries) + [Subscription(topic, handler)]
    {
      entries := entries + [Subscription(topic, handler)];
    }

    /** The table Run builds before it starts; None when a topic is subscribed twice. */
    method ByTopic() returns (table: Option<map<string, nat>>)
      ensures table.None? <==> exists i, j :: 0 <= i < j < |entries| && entries[i].topic == entries[j].topic
      ensures table.Some? ==>
                && table.value.Keys == (set k: nat | k < |entries| :: entries[k].topic)
                && forall e :: e in entries ==> table.value[e.topic] == e.handler
    {
      var byTopic: map<string, nat> := map[];
      for i := 0 to |entries|
        invariant byTopic.Keys == set k: nat | k < i :: entries[k].topic
        invariant forall k :: 0 <= k < i ==>
                    entries[k].topic in byTopic && byTopic[entries[k].topic] == entries[k].handler
        invariant forall k, m :: 0 <= k < m < i ==> entries[k].topic != entries[m].topic
      {
        if entries[i].topic in byTopic {
          return None;
        }
        byTopic := byTopic[entries[i].topic := entries[i].handler];
      }
      return Some(byTopic);
    }
  }
}
