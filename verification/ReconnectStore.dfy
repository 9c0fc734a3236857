/** The reconnect scheduler in place: three arrays indexed by node slot, and a pass that stops at its attempt. */
module ReconnectStore {
  import opened Limits
  import opened Options
  import opened Reconnect

  class Scheduler {
    var firstRun: bool
    var lastPass: int
    const clients: array<Client>
    const lastAttempt: array<int>
    const attempts: array<nat>

    ghost predicate Valid()
      reads this
    {
      clients.Length == lastAttempt.Length == attempts.Length == MAX_NODES
    }

    ghost function View(): (st: Sched)
      reads this, clients, lastAttempt, attempts
      requires Valid()
      ensures Sized(st)
    {
      Sched(firstRun, lastPass, clients[..], lastAttempt[..], attempts[..])
    }

    constructor ()
      ensures Valid() && View() == Start().st && fresh(clients) && fresh(lastAttempt) && fresh(attempts)
    {
      firstRun, lastPass := true, 0;
      clients := new Client[MAX_NODES](_ => Absent);
      lastAttempt := new int[MAX_NODES](_ => 0);
      attempts := new nat[MAX_NODES](_ => 0);
      new;
      assert clients[..] == Fill(Absent) && lastAttempt[..] == Fill(0) && attempts[..] == Fill(0);
    }

    /** Read from the connected peers. */
    method PollPeers(m: Members, e: Env)
      requires Valid() && EnvOk(e)
      modifies clients
      ensures View() == Poll(old(View()), m, e, 0)
    {
      for i := 0 to MAX_NODES
        invariant Poll(View(), m, e, i) == Poll(old(View()), m, e, 0)
      {
        if i >= |m.ids| || m.ids[i] == -1 || m.ids[i] == m.self {
          continue;
        }
        if clients[i] == Connected {
          ghost var st := View();
          clients[i] := e.ran[i];
          assert View() == SetClient(st, i, e.ran[i]);
        }
      }
    }

    /** Open the connection of slot `i`. */
    method Open(i: nat, e: Env, now: int)
      requires Valid() && i < MAX_NODES && clients[i] == Idle
      modifies clients, lastAttempt, attempts
      ensures View() == Connect(old(View()), e, now, i)
    {
      lastAttempt[i] := now;
      attempts[i] := attempts[i] + 1;
      if e.connects {
        attempts[i] := 0;
        clients[i] := e.greeted;
      }
    }

    /** One look at slot `i`: whether the pass stops there with an attempt. */
    method Visit(m: Members, e: Env, now: int, i: nat) returns (stop: bool)
      requires Valid() && EnvOk(e) && i < MAX_NODES
      modifies clients, lastAttempt, attempts
      ensures stop == Stops(old(View()), m, e, now, i) == Eligible(old(View()), m, e, now, i)
      ensures View() == if stop then Connect(SetClient(old(View()), i, Idle), e, now, i)
                        else Passed(old(View()), m, e, i)
    {
      ghost var before := View();
      if i >= |m.ids| || m.ids[i] == -1 || m.ids[i] == m.self {
        return false;
      }
      if clients[i] == Absent && e.made[i] {
        clients[i] := Idle;
      }
      assert View() == SetClient(before, i, Made(before, e, i));
      if clients[i] == Absent {
        return false;
      }
      if clients[i] == Connected {
        clients[i] := e.ran[i];
        assert View() == SetClient(before, i, e.ran[i]);
        return false;
      }
      var retry := RETRY_INTERVAL;
      if attempts[i] > 5 {
        retry := RETRY_INTERVAL * 2;
      }
      if attempts[i] > 10 {
        retry := RETRY_INTERVAL * 4;
      }
      if now - lastAttempt[i] < retry {
        return false;
      }
      Open(i, e, now);
      return true;
    }

    /** One tick of the main loop; the slot it attempted, if any. */
    method ClientTick(m: Members, e: Env, now: int) returns (slot: Option<nat>)
      requires Valid() && EnvOk(e)
      modifies this`firstRun, this`lastPass, clients, lastAttempt, attempts
      ensures (View(), slot) == Tick(old(View()), m, e, now)
    {
      slot := None;
      if |m.ids| == 0 || |m.ids| == 1 {
        return;
      }
      if firstRun {
        firstRun := false;
        return;
      }
      if now - lastPass < 1 {
        PollPeers(m, e);
        return;
      }
      lastPass := now;
      slot := ScanSlots(m, e, now);
    }

    method ScanSlots(m: Members, e: Env, now: int) returns (slot: Option<nat>)
      requires Valid() && EnvOk(e)
      modifies clients, lastAttempt, attempts
      ensures (View(), slot) == Scan(old(View()), m, e, now, 0)
    {
      for i := 0 to MAX_NODES
        invariant Scan(View(), m, e, now, i) == Scan(old(View()), m, e, now, 0)
      {
        ScanStep(View(), m, e, now, i);
        var stop := Visit(m, e, now, i);
        if stop {
          return Some(i);
        }
      }
      slot := None;
    }
  }
}
