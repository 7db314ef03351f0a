/** The timer driver's request table, changed in place, proved against `TimerSpec`. */
module TimerDriver {
  import opened Common
  import TS = TimerSpec

  /** An entry of `timer_requests`. */
  datatype TimerRequest = TimerRequest(id: nat, pid: nat, target: nat, active: bool)

  /** A message handed to `ipc_send`: the receiver and the request identifier. */
  datatype Packet = Packet(pid: nat, id: nat)

  function Plain(r: TS.Request): TimerRequest {
    TimerRequest(r.id, r.pid, r.target, r.active)
  }

  function Sent(n: TS.Notice): Packet {
    Packet(n.pid, n.id)
  }

  class TimerDriver {
    var ticks: nat
    var nextId: nat
    const requests: array<TimerRequest>
    var sent: seq<Packet>  // the notifications, in order

    ghost var history: TS.Timer

    /** The fields are those of the history. */
    ghost predicate Linked()
      reads this, requests
    {
      && requests.Length == |history.slots| == TS.MAX_REQUESTS
      && ticks == Wrap(history.elapsed) && nextId == Wrap(history.made)
      && (forall i :: 0 <= i < |history.slots| ==> requests[i] == Plain(history.slots[i]))
      && |sent| == |history.log| && (forall j :: 0 <= j < |sent| ==> sent[j] == Sent(history.log[j]))
    }

    ghost predicate Valid()
      reads this, requests
    {
      Linked() && TS.Inv(history)
    }

    constructor ()
      ensures Valid() && fresh(requests) && requests.Length == 32
      ensures TS.Initial(history) && history.elapsed == 0 && history.made == 1
    {
      ticks, nextId, sent := 0, 1, [];
      requests := new TimerRequest[TS.MAX_REQUESTS](_ => TimerRequest(0, 0, 0, false));
      history := TS.Timer(0, 1, seq(TS.MAX_REQUESTS, _ => TS.Request(0, 0, 0, false, 0)), [], []);
      new;
      TS.InitialKeepsInv(history);
    }

    /** The delay branch of `timer_driver_handle_message`; returns the identifier answered. */
    method Delay(pid: nat, ms: nat) returns (id: nat)
      requires Valid() && ms < WORD_VALUES
      modifies this, requests
      ensures Valid() && history == TS.Ask(old(history), pid, ms) && id == TS.Answer(old(history))
    {
      hide TS.Inv, TS.FirstInactive;
      TS.AskKeepsInv(history, pid, ms);
      var delay := Wrap(ms * TS.FREQUENCY) / 1000;
      id := 0;
      ghost var k := TS.FirstInactive(history.slots);
      for i := 0 to TS.MAX_REQUESTS
        invariant 0 <= i <= k && Linked() && history == old(history) && id == 0
      {
        if !requests[i].active {
          assert i == k;
          id := nextId;
          nextId := Increment(nextId);
          requests[i] := TimerRequest(id, pid, Wrap(ticks + delay), true);
          history := TS.Ask(history, pid, ms);
          WrapAgain(old(history).made, 1);
          return;
        }
        assert history.slots[i].active;
      }
    }

    /** The tick branch, with `timer_check_requests`. */
    method Tick()
      requires Valid()
      modifies this, requests
      ensures Valid() && history == TS.Tick(old(history))
      ensures forall i :: 0 <= i < requests.Length && requests[i].active ==> requests[i].target > ticks
    {
      hide TS.Inv, TS.CheckOne;
      TS.TickKeepsInv(history);
      ticks := Increment(ticks);
      WrapAgain(history.elapsed, 1);
      history := history.(elapsed := history.elapsed + 1);
      ghost var start := history;
      for i := 0 to TS.MAX_REQUESTS
        invariant Linked() && history == TS.CheckFirst(start, i)
      {
        CheckRequest(i);
      }
      TS.TargetsAhead(start, TS.MAX_REQUESTS);
    }

    method CheckRequest(i: nat)
      requires Linked() && i < requests.Length
      modifies this`sent, this`history, requests
      ensures Linked() && history == TS.CheckOne(old(history), i)
    {
      history := TS.CheckOne(history, i);
      if requests[i].active && requests[i].target <= ticks {
        requests[i] := requests[i].(active := false);
        sent := sent + [Packet(requests[i].pid, requests[i].id)];
      }
    }
  }
}
