/** The notification worker: at-least-once deliveries from the broker, a purged
    in-memory cache of delivered events, and one settlement for each message. */
module Worker {
  import opened HubTables

  const HOUR: int := 60 * MINUTE

  /** What a queue message decodes to. account is the reset event's flag (None when
      its data does not decode); renders tells whether the notification template accepts it. */
  datatype Message =
    | Unreadable
    | Event(id: string, passwordReset: bool, account: Option<bool>, renders: bool)

  datatype Settlement = Ack | Requeue | DeadLetter

  /** A successful delivery: duplicate check at start, record at finish, and whether an email left. */
  datatype Delivery = Delivery(id: string, start: int, finish: int, emailed: bool)

  /** One handling of a message, with the outcomes of the world outside. */
  datatype Attempt = Attempt(message: Message, start: int, finish: int, shuttingDown: bool, smtpAccepts: bool)

  // ----------------------------------------- the specification: the full log

  /** Some delivery of the event is no more than an hour old. */
  predicate RecentlyDelivered(log: seq<Delivery>, id: string, now: int) {
    exists k :: 0 <= k < |log| && log[k].id == id && now - HOUR <= log[k].finish
  }

  predicate IsUnknownReset(message: Message) {
    message.Event? && message.passwordReset && message.account == Some(false)
  }

  /** The reset of an unknown account counts as delivered without any email. */
  predicate Delivers(a: Attempt) {
    && a.message.Event?
    && (a.message.passwordReset ==> a.message.account.Some?)
    && (IsUnknownReset(a.message) || (a.message.renders && !a.shuttingDown && a.smtpAccepts))
  }

  function Settled(log: seq<Delivery>, a: Attempt): Settlement {
    if a.message.Unreadable? then DeadLetter
    else if RecentlyDelivered(log, a.message.id, a.start) || Delivers(a) then Ack
    else Requeue
  }

  function After(log: seq<Delivery>, a: Attempt): seq<Delivery> {
    if a.message.Event? && !RecentlyDelivered(log, a.message.id, a.start) && Delivers(a)
    then log + [Delivery(a.message.id, a.start, a.finish, !IsUnknownReset(a.message))]
    else log
  }

  /** The clock does not run backwards, within an attempt or between two. */
  predicate InOrder(attempts: seq<Attempt>) {
    && (forall k :: 0 <= k < |attempts| ==> attempts[k].start <= attempts[k].finish)
    && (forall j, k :: 0 <= j < k < |attempts| ==> attempts[j].finish <= attempts[k].start)
  }

  function Log(attempts: seq<Attempt>): seq<Delivery> {
    if attempts == [] then [] else After(Log(attempts[..|attempts| - 1]), attempts[|attempts| - 1])
  }

  function Settlements(attempts: seq<Attempt>): seq<Settlement> {
    if attempts == [] then []
    else
      var earlier := attempts[..|attempts| - 1];
      Settlements(earlier) + [Settled(Log(earlier), attempts[|attempts| - 1])]
  }

  ghost predicate SpacedByAnHour(log: seq<Delivery>) {
    forall i, j :: 0 <= i < j < |log| && log[i].id == log[j].id ==> log[i].finish + HOUR < log[j].start
  }

  ghost predicate LogUpTo(log: seq<Delivery>, now: int) {
    forall k :: 0 <= k < |log| ==> log[k].start <= log[k].finish <= now
  }

  /** Two deliveries of one event are over an hour apart, from the end of the first to the start of the second. */
  lemma {:induction false} DeliveriesAreAnHourApart(attempts: seq<Attempt>)
    requires InOrder(attempts)
    ensures SpacedByAnHour(Log(attempts))
    ensures attempts != [] ==> LogUpTo(Log(attempts), attempts[|attempts| - 1].finish)
  {
    if attempts != [] {
      var n := |attempts| - 1;
      var earlier, a := attempts[..n], attempts[n];
      DeliveriesAreAnHourApart(earlier);
      var log := Log(earlier);
      if After(log, a) != log {
        forall i | 0 <= i < |log| && log[i].id == a.message.id ensures log[i].finish + HOUR < a.start {
          assert log[i].finish < a.start - HOUR;
        }
      }
      if n > 0 {
        assert attempts[n - 1].finish <= a.start;
      }
    }
  }

  /** Each message is settled exactly once, and acknowledged exactly when, by
      then, a delivery of its event no older than an hour at its start is on
      record: a failed delivery is requeued, never dropped as a duplicate. */
  lemma {:induction false} AcknowledgedMeansDelivered(attempts: seq<Attempt>, k: nat)
    requires InOrder(attempts) && k < |attempts|
    ensures |Settlements(attempts)| == |attempts|
    ensures var a, settled := attempts[k], Settlements(attempts)[k];
      match a.message
      case Unreadable => settled == DeadLetter
      case Event(id, _, _, _) => settled == if RecentlyDelivered(Log(attempts[..k + 1]), id, a.start) then Ack else Requeue
  {
    var n := |attempts| - 1;
    if k < n {
      AcknowledgedMeansDelivered(attempts[..n], k);
      assert attempts[..n][..k + 1] == attempts[..k + 1];
    } else {
      if n > 0 {
        AcknowledgedMeansDelivered(attempts[..n], 0);
      }
      var log, a := Log(attempts[..n]), attempts[n];
      assert attempts[..k + 1] == attempts;
      if a.message.Event? {
        if RecentlyDelivered(log, a.message.id, a.start) {
          assert After(log, a) == log;
        } else if Delivers(a) {
          assert After(log, a)[|log|].id == a.message.id;
        }
      }
    }
  }

  /** An event none of whose attempts succeeded is requeued every time. */
  lemma {:induction false} FailuresAreNeverDropped(attempts: seq<Attempt>, id: string)
    requires forall k :: 0 <= k < |attempts| && attempts[k].message.Event? && attempts[k].message.id == id ==> !Delivers(attempts[k])
    ensures forall k :: 0 <= k < |Log(attempts)| ==> Log(attempts)[k].id != id
    ensures |Settlements(attempts)| == |attempts|
    ensures forall k :: 0 <= k < |attempts| && attempts[k].message.Event? && attempts[k].message.id == id ==> Settlements(attempts)[k] == Requeue
  {
    if attempts != [] {
      FailuresAreNeverDropped(attempts[..|attempts| - 1], id);
    }
  }

  // -------------------------------------------------------------- the worker

  class NotificationWorker {
    var seen: map<string, int>
    ghost var log: seq<Delivery>
    ghost var clock: int

    constructor (now: int)
      ensures Valid() && log == [] && clock == now
    {
      seen, log, clock := map[], [], now;
    }

    /** The cache holds, for each event, its latest delivery; what it has
        forgotten is more than an hour old. */
    ghost predicate Valid()
      reads this
    {
      && LogUpTo(log, clock)
      && (forall id :: id in seen ==> exists k :: 0 <= k < |log| && log[k].id == id && log[k].finish == seen[id])
      && (forall k :: 0 <= k < |log| && clock - HOUR <= log[k].finish ==> log[k].id in seen && log[k].finish <= seen[log[k].id])
    }

    /** The purged cache answers exactly as the full history would. */
    method AlreadyProcessed(id: string, now: int) returns (duplicate: bool)
      requires Valid() && clock <= now
      modifies this
      ensures Valid() && clock == now && log == old(log)
      ensures duplicate == RecentlyDelivered(log, id, now)
      ensures forall e :: e in seen <==> RecentlyDelivered(log, e, now)
    {
      var cutoff := now - HOUR;
      Purge(cutoff);
      clock := now;
      forall e ensures e in seen <==> RecentlyDelivered(log, e, now) {
        if e in seen {
          var k :| 0 <= k < |log| && log[k].id == e && log[k].finish == old(seen)[e];
        }
      }
      return id in seen;
    }

    method Purge(cutoff: int)
      modifies this`seen
      ensures seen == map id | id in old(seen) && cutoff <= old(seen)[id] :: old(seen)[id]
    {
      var rest := seen.Keys;
      while rest != {}
        invariant rest <= old(seen).Keys
        invariant seen == map id | id in old(seen) && (id in rest || cutoff <= old(seen)[id]) :: old(seen)[id]
        decreases rest
      {
        var id :| id in rest;
        if seen[id] < cutoff {
          seen := seen - {id};
        }
        rest := rest - {id};
      }
    }

    method MarkDelivered(id: string, now: int, ghost start: int, ghost emailed: bool)
      requires Valid() && start <= clock <= now
      modifies this
      ensures Valid() && clock == now
      ensures log == old(log) + [Delivery(id, start, now, emailed)]
      ensures seen == old(seen)[id := now]
    {
      seen := seen[id := now];
      ghost var before := log;
      log := log + [Delivery(id, start, now, emailed)];
      clock := now;
      forall e | e in seen ensures exists k :: 0 <= k < |log| && log[k].id == e && log[k].finish == seen[e] {
        if e == id {
          assert log[|before|].id == id && log[|before|].finish == seen[id];
        } else {
          var k :| 0 <= k < |before| && before[k].id == e && before[k].finish == old(seen)[e];
          assert log[k] == before[k];
        }
      }
    }

    /** Builds and sends the email of an event. */
    method Deliver(a: Attempt) returns (ok: bool, emailed: bool)
      requires a.message.Event?
      ensures ok == Delivers(a)
      ensures ok ==> emailed == !IsUnknownReset(a.message)
    {
      if a.message.passwordReset {
        if a.message.account.None? {
          return false, false;
        }
        if !a.message.account.value {
          return true, false;
        }
      }
      if !a.message.renders || a.shuttingDown {
        return false, false;
      }
      return a.smtpAccepts, a.smtpAccepts;
    }

    /** The cached worker settles and records as the full log prescribes. */
    method Handle(a: Attempt) returns (settlement: Settlement)
      requires Valid() && clock <= a.start <= a.finish
      modifies this
      ensures Valid() && clock <= a.finish
      ensures log == After(old(log), a) && settlement == Settled(old(log), a)
    {
      if a.message.Unreadable? {
        return DeadLetter;
      }
      var duplicate := AlreadyProcessed(a.message.id, a.start);
      if duplicate {
        return Ack;
      }
      var ok, emailed := Deliver(a);
      if !ok {
        return Requeue;
      }
      MarkDelivered(a.message.id, a.finish, a.start, emailed);
      return Ack;
    }

    /** The consuming loop. */
    method Consume(attempts: seq<Attempt>) returns (settlements: seq<Settlement>)
      requires Valid() && log == [] && InOrder(attempts) && (attempts != [] ==> clock <= attempts[0].start)
      modifies this
      ensures Valid() && log == Log(attempts) && settlements == Settlements(attempts)
      ensures SpacedByAnHour(log)
    {
      settlements := [];
      for i := 0 to |attempts|
        invariant Valid() && (i < |attempts| ==> clock <= attempts[i].start)
        invariant log == Log(attempts[..i]) && settlements == Settlements(attempts[..i])
      {
        var settlement := Handle(attempts[i]);
        settlements := settlements + [settlement];
        assert attempts[..i + 1][..i] == attempts[..i];
      }
      assert attempts[..|attempts|] == attempts;
      DeliveriesAreAnHourApart(attempts);
    }
  }
}
