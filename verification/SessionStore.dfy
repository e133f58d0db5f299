/** The cached session store as an object: each task and callback body of find and revoke is a method
    that updates the shared state in place. The object keeps the run of the protocol that its calls
    make up, so what holds of every run holds after every sequence of calls. */
module SessionStore {
  import opened Wrappers
  import opened SessionTextCodec
  import opened SessionProtocol
  import opened SessionWorkers

  class CachedSessionStore {
    var now: int
    var durable: map<string, Session>
    var cache: map<string, Entry>
    var queue: seq<nat>
    var workers: nat
    var capacity: nat
    var accepting: bool
    var ops: map<nat, Op>
    var replies: seq<nat>
    ghost var states: seq<World>
    ghost var events: seq<Event>

    ghost function View(): World
      reads this
    {
      World(now, durable, cache, ops, queue, workers, capacity, accepting, replies)
    }

    ghost predicate Valid()
      reads this
    {
      Run(states, events) && states[|events|] == View()
    }

    constructor (rows: map<string, Session>, workers: nat, capacity: nat)
      requires RowsStorable(rows)
      ensures Valid() && events == [] && durable == rows
    {
      now, durable, cache, queue, ops, replies := 0, rows, map[], [], map[], [];
      this.workers, this.capacity, accepting := workers, capacity, true;
      events := [];
      states := [World(0, rows, map[], map[], [], workers, capacity, true, [])];
    }

    /** The calls so far and one more step are a run. */
    ghost method Record(e: Event)
      requires Run(states, events) && Enabled(states[|events|], e) && View() == Apply(states[|events|], e)
      modifies `states, `events
      ensures Valid() && events == old(events) + [e]
    {
      hide Apply, Enabled;
      states, events := states + [View()], events + [e];
    }

    /** No tombstone has expired under an older copy so far. */
    ghost predicate AllGuarded()
      requires Valid()
      reads this
    {
      forall k :: 0 <= k < |events| ==> Guarded(states[k], events[k])
    }

    /** After any calls, every callback was invoked as often as its operation is over. While no tombstone
        expired under an older copy, what a settled revoke leaves behind is sealed, and a single worker
        leaves no active answer pending; right after such an expiry a leak lies ahead. */
    lemma CallsKeepTheLaws(token: string, id: nat)
      requires Valid()
      ensures id in ops ==> multiset(replies)[id] == if Done(ops[id]) then 1 else 0
      ensures AllGuarded() && Revoked(View(), token) ==>
                Sealed(View(), token) && (workers <= 1 ==> !Pending(View(), token))
      ensures var n := |events| - 1;
              n >= 0 && events[n] == Expire(token) && !Guarded(states[n], events[n]) ==> LeakAhead(View(), token)
    {
      hide Apply, Enabled, Guarded, Sealed, Revoked, Pending, LeakAhead, QueueAccounted, RepliesAccounted, Queued;
      var n := |events|;
      if id in ops { CallbackExactlyOnce(states, events, n, id); }
      if AllGuarded() && Revoked(View(), token) {
        SealedRun(states, events, token, n);
        AccountedRun(states, events, n);
        if workers <= 1 { NothingPending(states, events, token, n); }
      }
      if n > 0 && events[n - 1] == Expire(token) && !Guarded(states[n - 1], events[n - 1]) {
        UnguardedExpiryLeaks(states, events, token, n - 1);
      }
    }

    /** The next stage goes into the pool's queue, or the operation is refused. */
    method SubmitOr(id: nat, next: Op, refused: Op)
      modifies `ops, `queue
      ensures var ok := Admits(old(View()));
              && ops == old(ops)[id := if ok then next else refused]
              && queue == if ok then old(queue) + [id] else old(queue)
    {
      if accepting && workers != 0 && |queue| < capacity {
        queue := queue + [id];
        ops := ops[id := next];
      } else {
        ops := ops[id := refused];
      }
    }

    /** SETEX, or SET NX; the answer may get lost either way. */
    method Write(s: Session, a: Answer)
      modifies `cache
      ensures cache == if TookEffect(a) then Written(old(View()), s) else old(cache)
    {
      if a.Stored? || (a.Lost? && a.applied) {
        cache := cache[s.token := Entry(Serialize(s), now + TTL)];
      }
    }

    method Find(id: nat, token: string)
      requires Valid() && Enabled(View(), StartFind(id, token))
      modifies this
      ensures Valid() && events == old(events) + [StartFind(id, token)]
    {
      hide Run;
      if token == "" {
        ops := ops[id := FindAnswering(token, None, false)];
      } else {
        SubmitOr(id, FindQueued(token), FindAnswering(token, None, false));
      }
      Record(StartFind(id, token));
    }

    /** The first task of find. */
    method ProbeCache(id: nat, hit: bool)
      requires Valid() && Enabled(View(), Probe(id, hit))
      modifies this
      ensures Valid() && events == old(events) + [Probe(id, hit)]
    {
      hide Run, Deserialize;
      var token := ops[id].token;
      if hit {
        ops := ops[id := FindAnswering(token, if token in cache then Deserialize(cache[token].text) else None, true)];
      } else {
        ops := ops[id := FindReading(token)];
      }
      Record(Probe(id, hit));
    }

    /** The durable store reads the row for find. */
    method ReadRow(id: nat, ok: bool)
      requires Valid() && Enabled(View(), DurableRead(id, ok))
      modifies this
      ensures Valid() && events == old(events) + [DurableRead(id, ok)]
    {
      hide Run;
      var token := ops[id].token;
      ops := ops[id := FindDelivering(token, if ok && token in durable then Some(durable[token]) else None, now)];
      Record(DurableRead(id, ok));
    }

    /** The callback given to the durable store: submit the next stage, or end the operation. */
    method OnDurableAnswer(id: nat)
      requires Valid() && Enabled(View(), Deliver(id))
      modifies this
      ensures Valid() && events == old(events) + [Deliver(id)]
    {
      hide Run;
      var op := ops[id];
      match op {
        case FindDelivering(token, row, readAt) =>
          if row.None? {
            ops := ops[id := FindAnswering(token, None, false)];
          } else {
            SubmitOr(id, BackfillQueued(token, row.value, readAt), FindAnswering(token, None, false));
          }
        case RevokeDelivering(token, written) =>
          if !written {
            ops := ops[id := RevokeAnswering(token, false, false)];
          } else {
            SubmitOr(id, TombstoneQueued(token), RevokeAnswering(token, false, false));
          }
      }
      Record(Deliver(id));
    }

    /** The second task of find: an inactive copy overwrites, an active one is only added. */
    method BackfillCache(id: nat, a: Answer)
      requires Valid() && Enabled(View(), Backfill(id, a))
      modifies this
      ensures Valid() && events == old(events) + [Backfill(id, a)]
    {
      hide Run, Serialize;
      var op := ops[id];
      Write(op.copy, a);
      if op.copy.status == 0 {
        ops := ops[id := FindAnswering(op.token, if a.Stored? then Some(op.copy) else None, true)];
      } else if a.Stored? {
        ops := ops[id := FindAnswering(op.token, Some(op.copy), true)];
      } else {
        ops := ops[id := WinnerReading(op.token)];
      }
      Record(Backfill(id, a));
    }

    /** The loser of the race reads the winner's entry. */
    method ReadTheWinner(id: nat, hit: bool)
      requires Valid() && Enabled(View(), ReadWinner(id, hit))
      modifies this
      ensures Valid() && events == old(events) + [ReadWinner(id, hit)]
    {
      hide Run, Deserialize;
      var token := ops[id].token;
      var winner := if hit && token in cache then Deserialize(cache[token].text) else None;
      ops := ops[id := FindAnswering(token, winner, true)];
      Record(ReadWinner(id, hit));
    }

    method Revoke(id: nat, token: string)
      requires Valid() && Enabled(View(), StartRevoke(id, token))
      modifies this
      ensures Valid() && events == old(events) + [StartRevoke(id, token)]
    {
      hide Run;
      ops := ops[id := if token == "" then RevokeAnswering(token, false, false) else RevokeWriting(token)];
      Record(StartRevoke(id, token));
    }

    /** The durable store deactivates an active row. */
    method WriteRow(id: nat, ok: bool)
      requires Valid() && Enabled(View(), DurableRevoke(id, ok))
      modifies this
      ensures Valid() && events == old(events) + [DurableRevoke(id, ok)]
    {
      hide Run;
      var token := ops[id].token;
      if ok && token in durable && durable[token].status == 1 {
        durable := durable[token := durable[token].(sceneId := "", status := 0)];
      }
      ops := ops[id := RevokeDelivering(token, ok)];
      Record(DurableRevoke(id, ok));
    }

    /** The task of revoke. */
    method WriteTombstone(id: nat, a: Answer)
      requires Valid() && Enabled(View(), PutTombstone(id, a))
      modifies this
      ensures Valid() && events == old(events) + [PutTombstone(id, a)]
    {
      hide Run, Serialize;
      var token := ops[id].token;
      Write(Tombstone(token), a);
      ops := ops[id := RevokeAnswering(token, a.Stored?, true)];
      Record(PutTombstone(id, a));
    }

    /** The callback, with the operation's result. */
    method InvokeCallback(id: nat)
      requires Valid() && Enabled(View(), CallBack(id))
      modifies this
      ensures Valid() && events == old(events) + [CallBack(id)] && replies == old(replies) + [id]
    {
      hide Run;
      var op := ops[id];
      match op {
        case FindAnswering(token, found, _) => ops := ops[id := FindDone(token, found)];
        case RevokeAnswering(token, ok, _) => ops := ops[id := RevokeDone(token, ok)];
      }
      replies := replies + [id];
      Record(CallBack(id));
    }

    lemma HeadWaits()
      requires Valid() && queue != []
      ensures queue[0] in ops && Queued(ops[queue[0]])
    {
      hide Apply, Enabled, RepliesAccounted, Occupied;
      AccountedRun(states, events, |events|);
      HeadIsQueued(View());
    }

    /** A free worker takes the oldest task. */
    method BeginTask()
      requires Valid() && Enabled(View(), Begin)
      modifies this
      ensures Valid() && events == old(events) + [Begin]
    {
      HeadWaits();
      hide Run, WorkerFree;
      var id := queue[0];
      queue := queue[1..];
      ops := ops[id := Started(ops[id])];
      Record(Begin);
    }

    /** TaskWorkerPool::shutdown closes admission. */
    method CloseAdmission()
      requires Valid()
      modifies this
      ensures Valid() && events == old(events) + [Shutdown] && !accepting
    {
      hide Run;
      accepting := false;
      Record(Shutdown);
    }

    // ---------- what others do to the stores ----------

    /** A login inserts a session under a fresh token. */
    method CreateSession(s: Session)
      requires Valid() && Enabled(View(), Create(s))
      modifies this
      ensures Valid() && events == old(events) + [Create(s)]
    {
      hide Run;
      durable := durable[s.token := s];
      Record(Create(s));
    }

    method AdvanceClock(to: int)
      requires Valid() && now <= to
      modifies this
      ensures Valid() && events == old(events) + [Tick(to)] && now == to
    {
      hide Run;
      now := to;
      Record(Tick(to));
    }

    /** EXPIRE after a successful GET. */
    method RefreshEntry(token: string)
      requires Valid() && token in cache
      modifies this
      ensures Valid() && events == old(events) + [Refresh(token)]
    {
      hide Run;
      cache := cache[token := cache[token].(deadline := now + TTL)];
      Record(Refresh(token));
    }

    /** The cache drops an entry past its deadline. */
    method ExpireEntry(token: string)
      requires Valid() && token in cache && cache[token].deadline <= now
      modifies this
      ensures Valid() && events == old(events) + [Expire(token)] && token !in cache
    {
      hide Run;
      cache := cache - {token};
      Record(Expire(token));
    }
  }
}
