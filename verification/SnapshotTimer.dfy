/** When the worker saves a snapshot: whenever the store's version or the queue's length moved since the last save. */
module SnapshotTimer {

  /** A write enqueued - which always bumps the version - a queued write settled, a load that changed the store,
      and the timer. */
  datatype Event = Enqueue | Settle | Load | Tick

  /** Nothing has been saved yet when savedVersion is -1. */
  datatype State = State(version: nat, pending: nat, savedVersion: int, savedPending: int) {
    predicate Differs() {
      version != savedVersion || pending != savedPending
    }

    function Next(e: Event): State {
      match e
      case Enqueue => this.(version := version + 1, pending := pending + 1)
      case Settle => if pending > 0 then this.(pending := pending - 1) else this
      case Load => this.(version := version + 1)
      case Tick => this.(savedVersion := version, savedPending := pending)
    }
  }

  /** The worker boots on a store of some version, with the writes the snapshot had queued. */
  function Boot(version: nat, pending: nat): State {
    State(version, pending, -1, -1)
  }

  function Run(boot: State, events: seq<Event>): State {
    if events == [] then boot else Run(boot, events[..|events| - 1]).Next(events[|events| - 1])
  }

  /** Has anything moved since the timer last looked? At first, everything has. */
  predicate Moved(boot: State, events: seq<Event>) {
    if events == [] then true
    else
      var front := events[..|events| - 1];
      match events[|events| - 1]
      case Enqueue => true
      case Settle => Run(boot, front).pending > 0 || Moved(boot, front)
      case Load => true
      case Tick => false
  }

  /** Since the last save the version has not gone back, and where it stands still the queue only shrank. */
  lemma {:induction false} NeverBack(version: nat, pending: nat, events: seq<Event>)
    ensures var s := Run(Boot(version, pending), events);
            s.savedVersion <= s.version && (s.savedVersion == s.version ==> s.pending <= s.savedPending)
  {
    if events != [] {
      NeverBack(version, pending, events[..|events| - 1]);
    }
  }

  /** In every run the pair of version and queue length differs from the last saved pair exactly when something
      moved since: no movement is missed, and a stuck queue is not saved again. */
  lemma {:induction false} DiffersExactlyWhenMoved(version: nat, pending: nat, events: seq<Event>)
    ensures Run(Boot(version, pending), events).Differs() <==> Moved(Boot(version, pending), events)
  {
    if events != [] {
      NeverBack(version, pending, events[..|events| - 1]);
      DiffersExactlyWhenMoved(version, pending, events[..|events| - 1]);
    }
  }

  lemma {:induction false} AtLeast(version: nat, pending: nat, events: seq<Event>)
    ensures var s, n := Run(Boot(version, pending), events), multiset(events);
            s.version == version + n[Enqueue] + n[Load] && s.pending >= pending + n[Enqueue] - n[Settle]
  {
    if events != [] {
      AtLeast(version, pending, events[..|events| - 1]);
      assert events == events[..|events| - 1] + [events[|events| - 1]];
    }
  }

  /** At every time no more was settled than there was. */
  ghost predicate Fits(pending: nat, events: seq<Event>) {
    forall k | 0 <= k <= |events| :: multiset(events[..k])[Settle] <= pending + multiset(events[..k])[Enqueue]
  }

  lemma FitsStep(pending: nat, front: seq<Event>, e: Event)
    ensures var events := front + [e];
            Fits(pending, events)
            <==> Fits(pending, front) && multiset(events)[Settle] <= pending + multiset(events)[Enqueue]
  {
    var events := front + [e];
    assert events[..|events|] == events;
    assert forall k | 0 <= k <= |front| :: events[..k] == front[..k];
  }

  /** The version counts the writes enqueued and the loads. The queue holds what was enqueued and not settled,
      exactly when no more was settled than there was at any time. */
  lemma {:induction false} Counted(version: nat, pending: nat, events: seq<Event>)
    ensures var s, n := Run(Boot(version, pending), events), multiset(events);
            && s.version == version + n[Enqueue] + n[Load]
            && (Fits(pending, events) <==> s.pending == pending + n[Enqueue] - n[Settle])
  {
    AtLeast(version, pending, events);
    if events != [] {
      var front, e := events[..|events| - 1], events[|events| - 1];
      assert events == front + [e];
      Counted(version, pending, front);
      AtLeast(version, pending, front);
      FitsStep(pending, front, e);
      hide Fits;
    }
  }

  class Worker {
    var version: nat
    var pending: nat
    var lastSaved: int
    var lastSavedPending: int

    function Value(): State
      reads this
    {
      State(version, pending, lastSaved, lastSavedPending)
    }

    constructor (version: nat, pending: nat)
      ensures Value() == Boot(version, pending)
    {
      this.version, this.pending := version, pending;
      lastSaved, lastSavedPending := -1, -1;
    }

    method Save()
      modifies this
      ensures Value() == old(Value()).Next(Tick)
    {
      lastSaved := version;
      lastSavedPending := pending;
    }

    /** The timer saves only when the pair differs; either way the pair is then the saved one. */
    method OnTimer() returns (saved: bool)
      modifies this
      ensures saved == old(Value()).Differs() && Value() == old(Value()).Next(Tick)
    {
      saved := version != lastSaved || pending != lastSavedPending;
      if saved {
        Save();
      }
    }
  }
}
