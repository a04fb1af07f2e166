/** The kitchen service's consume loop: while running, take a pending shutdown signal
    or poll the consumer; decode each message, "prepare" the order, then commit the
    message's offset by hand. A decode failure is logged and skipped without a commit; a
    commit failure is logged and the loop goes on; a Kafka error is logged; an empty poll
    does nothing. Only a signal stops the loop.

    The broker, the signal channel and the select are outside the model: the loop runs
    over a script of ticks, each one either the signal the select saw or what Poll
    returned (for a message, also whether CommitMessage then succeeded). */
module KitchenService {
  import opened Wrappers
  import opened Avro
  import opened OrderEvent
  import opened Seqs

  datatype KafkaMessage = KafkaMessage(partition: int, offset: int, key: seq<byte>, value: seq<byte>)

  /** What c.Poll returned. */
  datatype PollResult =
    | NoEvent                                        // nil: nothing arrived in time
    | Message(message: KafkaMessage, commitOk: bool) // *kafka.Message, and CommitMessage's outcome
    | KafkaError(description: string)                // a kafka.Error event
    | OtherEvent                                     // any other event; the switch ignores it

  /** One turn of the loop: the select took the signal, or it polled. */
  datatype Tick = Signal | Poll(result: PollResult)

  /** What the loop does to the outside world, in order. */
  datatype Effect =
    | Prepared(order: OrderCreated)                   // the kitchen prepares a decoded order
    | CommitAttempted(message: KafkaMessage, ok: bool) // CommitMessage, and whether it succeeded

  // ---------------------------------------------------------------------------
  // Specification of the loop over a script

  /** The effects of one poll result: only a message that decodes has any, and then the
      order is prepared before the message is committed. */
  function PollEffects(p: PollResult): (r: seq<Effect>)
    ensures r != [] <==> p.Message? && Unmarshal(p.message.value).Success?
    ensures r != [] ==>
      && |r| == 2 && r[0].Prepared? && Unmarshal(p.message.value) == Success(r[0].order)
      && r[1] == CommitAttempted(p.message, p.commitOk)
  {
    match p
    case Message(m, ok) =>
      (match Unmarshal(m.value)
       case Success(order) => [Prepared(order), CommitAttempted(m, ok)]
       case Failure(_) => [])
    case _ => []
  }

  /** The effects of running the loop over a script: every tick up to the first signal. */
  function Trace(script: seq<Tick>): seq<Effect> {
    if script == [] then []
    else
      match script[0]
      case Signal => []
      case Poll(p) => PollEffects(p) + Trace(script[1..])
  }

  /** How many ticks the loop takes from the script: up to and including the first signal. */
  function Consumed(script: seq<Tick>): (n: nat)
    ensures n <= |script|
  {
    if script == [] then 0
    else
      match script[0]
      case Signal => 1
      case Poll(_) => 1 + Consumed(script[1..])
  }

  /** The messages whose offsets a run of effects committed, in order. */
  function Committed(effects: seq<Effect>): seq<KafkaMessage> {
    if effects == [] then []
    else
      (match effects[0]
       case CommitAttempted(m, true) => [m]
       case _ => [])
      + Committed(effects[1..])
  }

  /** A tick whose message decodes and whose commit succeeds. */
  predicate Commits(t: Tick) {
    t.Poll? && t.result.Message? && t.result.commitOk && Unmarshal(t.result.message.value).Success?
  }

  /** An independent account of the commits: the committing ticks' messages, in poll order. */
  function CommittingMessages(ticks: seq<Tick>): seq<KafkaMessage> {
    if ticks == [] then []
    else (if Commits(ticks[0]) then [ticks[0].result.message] else []) + CommittingMessages(ticks[1..])
  }

  /** Every commit attempt comes right after the order it commits was prepared, that order
      is what the message decodes to, and every prepared order is followed by its commit. */
  ghost predicate PreparedThenCommitted(t: seq<Effect>) {
    && (forall k :: 0 <= k < |t| && t[k].CommitAttempted? ==>
          0 < k && t[k - 1].Prepared? && Unmarshal(t[k].message.value) == Success(t[k - 1].order))
    && (forall k :: 0 <= k < |t| && t[k].Prepared? ==> k + 1 < |t| && t[k + 1].CommitAttempted?)
  }

  // ---------------------------------------------------------------------------
  // The loop

  class KitchenConsumer {
    var running: bool
    var committed: seq<KafkaMessage>
    var effects: seq<Effect>

    constructor ()
      ensures !running && committed == [] && effects == []
    {
      running := false;
      committed := [];
      effects := [];
    }

    /** One iteration of the loop body. */
    method Turn(t: Tick)
      modifies this
      ensures running == (old(running) && !t.Signal?)
      ensures effects == old(effects) + (if t.Poll? then PollEffects(t.result) else [])
      ensures committed == old(committed) + (if Commits(t) then [t.result.message] else [])
    {
      match t
      case Signal =>
        running := false;
      case Poll(p) =>
        match p
        case NoEvent =>
        case Message(m, ok) =>
          var decoded := Unmarshal(m.value);
          if decoded.Failure? {
            return;   // logged; no commit
          }
          effects := effects + [Prepared(decoded.value)];
          effects := effects + [CommitAttempted(m, ok)];
          if ok {
            committed := committed + [m];
          }           // else logged; the loop goes on
        case KafkaError(_) =>
        case OtherEvent =>
    }

    /** The `for run` loop over a script. It ends at the first signal, or when the script
        runs out while still running. */
    method Run(script: seq<Tick>) returns (consumed: nat)
      modifies this
      ensures consumed == Consumed(script)
      ensures running <==> Signal !in script
      ensures effects == old(effects) + Trace(script)
      ensures committed == old(committed) + Committed(Trace(script))
    {
      running := true;
      consumed := 0;
      assert script[consumed..] == script;
      while running && consumed < |script|
        invariant consumed <= |script|
        invariant running ==> forall j :: 0 <= j < consumed ==> script[j].Poll?
        invariant running ==> consumed + Consumed(script[consumed..]) == Consumed(script)
        invariant running ==> effects + Trace(script[consumed..]) == old(effects) + Trace(script)
        invariant running ==>
          committed + Committed(Trace(script[consumed..])) == old(committed) + Committed(Trace(script))
        invariant !running ==> 0 < consumed == Consumed(script) && script[consumed - 1] == Signal
        invariant !running ==> effects == old(effects) + Trace(script)
        invariant !running ==> committed == old(committed) + Committed(Trace(script))
      {
        var t := script[consumed];
        ghost var rest := script[consumed..];
        ghost var (effects0, committed0) := (effects, committed);
        TickUnfold(rest);
        assert rest[0] == t && rest[1..] == script[consumed + 1..];
        Turn(t);
        if t.Signal? {
          assert effects == effects0 + Trace(rest);
          assert committed == committed0 + Committed(Trace(rest));
        } else {
          ghost var step := PollEffects(t.result);
          ghost var stepCommits := if Commits(t) then [t.result.message] else [];
          assert effects == effects0 + step;
          assert committed == committed0 + stepCommits;
          AppendAssoc(effects0, step, Trace(rest[1..]));
          AppendAssoc(committed0, stepCommits, Committed(Trace(rest[1..])));
        }
        consumed := consumed + 1;
      }
      assert running ==> script[consumed..] == [];
    }
  }

  // ---------------------------------------------------------------------------
  // Properties of the specification

  /** What the first tick of a script contributes to the run. */
  lemma TickUnfold(script: seq<Tick>)
    requires script != []
    ensures script[0].Signal? ==> Trace(script) == [] && Consumed(script) == 1
    ensures script[0].Poll? ==>
      && Trace(script) == PollEffects(script[0].result) + Trace(script[1..])
      && Consumed(script) == 1 + Consumed(script[1..])
      && Committed(Trace(script))
         == (if Commits(script[0]) then [script[0].result.message] else []) + Committed(Trace(script[1..]))
  {
    if script[0].Poll? {
      CommittedAppend(PollEffects(script[0].result), Trace(script[1..]));
      PollEffectsCommitted(script[0].result);
    }
  }

  lemma {:induction false} CommittedAppend(a: seq<Effect>, b: seq<Effect>)
    ensures Committed(a + b) == Committed(a) + Committed(b)
    decreases |a|
  {
    if a != [] {
      assert (a + b)[0] == a[0] && (a + b)[1..] == a[1..] + b;
      CommittedAppend(a[1..], b);
    } else {
      assert a + b == b;
    }
  }

  lemma PollEffectsCommitted(p: PollResult)
    ensures Committed(PollEffects(p)) == if Commits(Poll(p)) then [p.message] else []
  {
    if p.Message? && Unmarshal(p.message.value).Success? {
      var m, ok := p.message, p.commitOk;
      var e := [Prepared(Unmarshal(m.value).value), CommitAttempted(m, ok)];
      assert PollEffects(p) == e;
      assert e[1..] == [CommitAttempted(m, ok)] && e[1..][1..] == [];
      assert Committed(e[1..]) == (if ok then [m] else []);
    }
  }

  /** The commits of a run are exactly the committing ticks it polled, in poll order:
      a message is committed only when it decoded and its commit succeeded. */
  lemma {:induction false} CommittedInPollOrder(script: seq<Tick>)
    ensures Committed(Trace(script)) == CommittingMessages(script[..Consumed(script)])
  {
    if script != [] {
      var t := script[0];
      var n := Consumed(script);
      if t.Signal? {
        assert script[..n] == [t];
        assert [t][1..] == [];
      } else {
        CommittedInPollOrder(script[1..]);
        CommittedAppend(PollEffects(t.result), Trace(script[1..]));
        PollEffectsCommitted(t.result);
        assert script[..n][0] == t;
        assert script[..n][1..] == script[1..][..Consumed(script[1..])];
      }
    }
  }

  /** A message is among the committing messages of some ticks exactly when one of those
      ticks polled it, it decoded, and its commit succeeded. */
  lemma {:induction false} CommittingMessagesMembers(ticks: seq<Tick>, m: KafkaMessage)
    ensures m in CommittingMessages(ticks) <==>
      exists i :: 0 <= i < |ticks| && Commits(ticks[i]) && ticks[i].result.message == m
  {
    if ticks != [] {
      CommittingMessagesMembers(ticks[1..], m);
      if exists i :: 0 <= i < |ticks[1..]| && Commits(ticks[1..][i]) && ticks[1..][i].result.message == m {
        var i :| 0 <= i < |ticks[1..]| && Commits(ticks[1..][i]) && ticks[1..][i].result.message == m;
        assert ticks[i + 1] == ticks[1..][i];
      }
      if exists i :: 0 <= i < |ticks| && Commits(ticks[i]) && ticks[i].result.message == m {
        var i :| 0 <= i < |ticks| && Commits(ticks[i]) && ticks[i].result.message == m;
        if i > 0 {
          assert ticks[1..][i - 1] == ticks[i];
        }
      }
    }
  }

  lemma {:induction false} PreparedThenCommittedAppend(a: seq<Effect>, b: seq<Effect>)
    requires PreparedThenCommitted(a) && PreparedThenCommitted(b)
    ensures PreparedThenCommitted(a + b)
  {
    var t := a + b;
    forall k | 0 <= k < |t| && t[k].CommitAttempted?
      ensures 0 < k && t[k - 1].Prepared? && Unmarshal(t[k].message.value) == Success(t[k - 1].order)
    {
      if k < |a| {
        assert t[k] == a[k] && t[k - 1] == a[k - 1];
      } else {
        assert t[k] == b[k - |a|];
        assert t[k - 1] == b[k - |a| - 1];
      }
    }
    forall k | 0 <= k < |t| && t[k].Prepared?
      ensures k + 1 < |t| && t[k + 1].CommitAttempted?
    {
      if k < |a| {
        assert t[k] == a[k] && t[k + 1] == a[k + 1];
      } else {
        assert t[k] == b[k - |a|];
        assert t[k + 1] == b[k + 1 - |a|];
      }
    }
  }

  /** In any run, an offset is committed only right after the order it carries was
      decoded and prepared, and every prepared order is then committed. */
  lemma {:induction false} TracePreparesThenCommits(script: seq<Tick>)
    ensures PreparedThenCommitted(Trace(script))
  {
    if script != [] && script[0].Poll? {
      TracePreparesThenCommits(script[1..]);
      PreparedThenCommittedAppend(PollEffects(script[0].result), Trace(script[1..]));
    }
  }

  /** Only a signal ends the loop: with a signal in the script the loop takes exactly the
      ticks up to the first one; without one it takes them all. */
  lemma {:induction false} StopsOnlyAtSignal(script: seq<Tick>)
    ensures Consumed(script) <= |script|
    ensures Signal in script ==>
      0 < Consumed(script) && script[Consumed(script) - 1] == Signal
      && Signal !in script[..Consumed(script) - 1]
    ensures Signal !in script ==> Consumed(script) == |script|
  {
    if script != [] && script[0].Poll? {
      StopsOnlyAtSignal(script[1..]);
      assert script == [script[0]] + script[1..];
      var n := Consumed(script);
      if Signal in script {
        assert script[..n - 1] == [script[0]] + script[1..][..n - 2];
      }
    }
  }

  /** Nothing after a signal is ever polled: whatever follows it changes nothing. */
  lemma {:induction false} NothingAfterSignal(script: seq<Tick>, later: seq<Tick>)
    requires Signal in script
    ensures Trace(script + later) == Trace(script)
    ensures Consumed(script + later) == Consumed(script)
  {
    assert (script + later)[0] == script[0];
    if script[0].Poll? {
      assert (script + later)[1..] == script[1..] + later;
      NothingAfterSignal(script[1..], later);
    }
  }

  /** An empty poll, a Kafka error, an ignored event and a message that does not decode
      commit nothing, prepare nothing, and the loop goes on to the next tick. */
  lemma QuietTick(p: PollResult, script: seq<Tick>)
    requires p.NoEvent? || p.KafkaError? || p.OtherEvent?
          || (p.Message? && Unmarshal(p.message.value).Failure?)
    ensures Trace([Poll(p)] + script) == Trace(script)
    ensures Consumed([Poll(p)] + script) == 1 + Consumed(script)
  {
    assert ([Poll(p)] + script)[1..] == script;
  }

  /** A failed commit is attempted and reported but commits nothing; the loop goes on. */
  lemma FailedCommit(m: KafkaMessage, script: seq<Tick>)
    ensures Unmarshal(m.value).Success? ==>
      Trace([Poll(Message(m, false))] + script)
      == [Prepared(Unmarshal(m.value).value), CommitAttempted(m, false)] + Trace(script)
    ensures Committed(Trace([Poll(Message(m, false))] + script)) == Committed(Trace(script))
    ensures Consumed([Poll(Message(m, false))] + script) == 1 + Consumed(script)
  {
    assert ([Poll(Message(m, false))] + script)[1..] == script;
    CommittedAppend(PollEffects(Message(m, false)), Trace(script));
    PollEffectsCommitted(Message(m, false));
  }
}
