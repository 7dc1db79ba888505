/** The user_like table, kept by replaying the switches that the Redis sets went through. */
module Replay {
  import opened Text
  import opened Consumer

  datatype Kind = Video | Comment
  datatype Key = Key(kind: Kind, target: Id, user: Id)

  /** What the like sets hold, what the table holds, and per key the switches published and not yet consumed
      (`pending`) and all published so far (`log`). */
  datatype State = State(members: set<Key>, rows: set<Key>, pending: map<Key, seq<bool>>, log: map<Key, seq<bool>>)

  datatype Step =
    | Switch(key: Key, active: bool, publishOk: bool)
    | Consume(key: Key, acknowledged: bool)

  function At(m: map<Key, seq<bool>>, key: Key): seq<bool> {
    if key in m then m[key] else []
  }

  function Put(s: set<Key>, key: Key, active: bool): set<Key> {
    if active then s + {key} else s - {key}
  }

  /** A switch publishes exactly when it changes the set, and takes the change back when publishing fails. The
      head of a key's queue is handled; it stays at the head when it is not acknowledged. */
  function Apply(s: State, step: Step): State {
    match step
    case Switch(key, active, publishOk) =>
      if (key in s.members) == active then s
      else if !publishOk then s.(members := Put(Put(s.members, key, active), key, !active))
      else s.(members := Put(s.members, key, active),
              pending := s.pending[key := At(s.pending, key) + [active]],
              log := s.log[key := At(s.log, key) + [active]])
    case Consume(key, acknowledged) =>
      var queue := At(s.pending, key);
      if queue == [] then s
      else s.(rows := Put(s.rows, key, queue[0]),
              pending := if acknowledged then s.pending[key := queue[1..]] else s.pending)
  }

  const START := State({}, {}, map[], map[])

  function Run(s: State, steps: seq<Step>): State
    decreases |steps|
  {
    if steps == [] then s else Run(Apply(s, steps[0]), steps[1..])
  }

  /** The row after the handlers have gone through these switches. */
  function RowAfter(row: bool, switches: seq<bool>): bool
    decreases |switches|
  {
    if switches == [] then row else RowAfter(switches[0], switches[1..])
  }

  ghost predicate Alternates(log: seq<bool>) {
    forall i :: 0 <= i < |log| ==> (log[i] <==> i % 2 == 0)
  }

  ghost predicate Inv(s: State) {
    && (forall key :: RowAfter(key in s.rows, At(s.pending, key)) == (key in s.members))
    && (forall key :: Alternates(At(s.log, key)) && (key in s.members <==> |At(s.log, key)| % 2 == 1))
  }

  lemma {:induction false} RowAfterLast(row: bool, switches: seq<bool>)
    requires switches != []
    ensures RowAfter(row, switches) == switches[|switches| - 1]
    decreases |switches|
  {
    if |switches| > 1 {
      RowAfterLast(switches[0], switches[1..]);
    }
  }

  lemma StepKeepsInv(s: State, step: Step)
    requires Inv(s)
    ensures Inv(Apply(s, step))
  {
    var s' := Apply(s, step);
    match step
    case Switch(key, active, publishOk) =>
      if (key in s.members) != active && publishOk {
        RowAfterLast(key in s'.rows, At(s'.pending, key));
        assert At(s'.log, key) == At(s.log, key) + [active];
        forall k ensures Alternates(At(s'.log, k)) && (k in s'.members <==> |At(s'.log, k)| % 2 == 1) {
          assert Alternates(At(s.log, k)) && (k in s.members <==> |At(s.log, k)| % 2 == 1);
        }
      } else if (key in s.members) != active {
        assert s'.members == s.members;
      }
    case Consume(key, acknowledged) =>
      var queue := At(s.pending, key);
      if queue != [] {
        RowAfterLast(key in s.rows, queue);
        RowAfterLast(key in s'.rows, queue);
        if acknowledged && |queue| > 1 { RowAfterLast(key in s'.rows, queue[1..]); }
      }
  }

  lemma {:induction false} RunKeepsInv(s: State, steps: seq<Step>)
    requires Inv(s)
    ensures Inv(Run(s, steps))
    decreases |steps|
  {
    if steps != [] {
      StepKeepsInv(s, steps[0]);
      RunKeepsInv(Apply(s, steps[0]), steps[1..]);
    }
  }

  /** In every reachable state, applying a key's pending switches to the table gives the membership in Redis,
      head redeliveries and failed publications included; so with its queue drained there is a row exactly
      when there is a member. */
  lemma TableCatchesUp(steps: seq<Step>, s: State, key: Key)
    requires s == Run(START, steps)
    ensures RowAfter(key in s.rows, At(s.pending, key)) == (key in s.members)
    ensures At(s.pending, key) == [] ==> (key in s.rows <==> key in s.members)
  {
    RunKeepsInv(START, steps);
  }

  /** A switch that is published, or needs no publishing, leaves the membership as asked; one that cannot be published
      changes nothing; neither touches the table or another key. */
  lemma SwitchSetsTheMember(s: State, key: Key, active: bool, publishOk: bool, other: Key)
    ensures var s' := Apply(s, Switch(key, active, publishOk));
            && (key in s'.members <==> if publishOk || (key in s.members) == active then active else key in s.members)
            && (other != key ==> (other in s'.members <==> other in s.members) && At(s'.pending, other) == At(s.pending, other))
            && s'.rows == s.rows
            && At(s'.pending, key) == At(s.pending, key) + if publishOk && (key in s.members) != active then [active] else []
  {
  }

  function Drain(key: Key, n: nat): (r: seq<Step>)
    ensures |r| == n && forall i :: 0 <= i < n ==> r[i] == Consume(key, true)
  {
    seq(n, _ => Consume(key, true))
  }

  /** From any reachable state, handling a key's pending switches one after another empties its queue and brings its row
      in line with the set, and leaves every other row alone. */
  lemma {:induction false} DrainingBringsTheRow(s: State, key: Key, other: Key)
    requires Inv(s)
    ensures var end := Run(s, Drain(key, |At(s.pending, key)|));
            && At(end.pending, key) == [] && end.members == s.members
            && (key in end.rows <==> key in s.members)
            && (other != key ==> (other in end.rows <==> other in s.rows) && At(end.pending, other) == At(s.pending, other))
    decreases |At(s.pending, key)|
  {
    var n := |At(s.pending, key)|;
    if n > 0 {
      var next := Apply(s, Consume(key, true));
      StepKeepsInv(s, Consume(key, true));
      assert Drain(key, n)[1..] == Drain(key, n - 1);
      DrainingBringsTheRow(next, key, other);
    }
  }

  /** Were the published switches delivered in any other way, out of order or over and over, then the row would
      be right exactly when the last one delivered is an even number of switches before the last published. */
  lemma AnyDeliveryIsRightExactlyAtEvenLag(steps: seq<Step>, s: State, key: Key, row: bool, deliveries: seq<nat>)
    requires s == Run(START, steps) && deliveries != []
    requires forall i :: 0 <= i < |deliveries| ==> deliveries[i] < |At(s.log, key)|
    ensures var log := At(s.log, key);
            var last := deliveries[|deliveries| - 1];
            (RowAfter(row, seq(|deliveries|, i requires 0 <= i < |deliveries| => log[deliveries[i]])) == (key in s.members))
            <==> (|log| - 1 - last) % 2 == 0
  {
    RunKeepsInv(START, steps);
    var log := At(s.log, key);
    RowAfterLast(row, seq(|deliveries|, i requires 0 <= i < |deliveries| => log[deliveries[i]]));
    assert Alternates(log);
  }

  class LikeTable {
    var rows: set<Key>

    constructor ()
      ensures rows == {}
    {
      rows := {};
    }

    /** Insert, ignoring a duplicate; or delete. */
    method HandleSwitched(kind: Option<Kind>, target: Id, user: Id, liked: bool) returns (result: HandlerResult)
      modifies this
      ensures result == if user == 0 || target == 0 || kind.None? then Permanent else Success
      ensures rows == if result == Success then Put(old(rows), Key(kind.value, target, user), liked) else old(rows)
    {
      if user == 0 || target == 0 {
        return Permanent;
      }
      if kind.None? {
        return Permanent;
      }
      var key := Key(kind.value, target, user);
      if liked {
        rows := rows + {key};
      } else {
        rows := rows - {key};
      }
      return Success;
    }
  }
}
