// Every step of the promises keeps their invariant.  The registrations on their way from one list
// to another are the parameter of InFlight; a step puts them in flight and Deliver lands them.
module PromiseInvariant {
  import opened Promises

  ghost predicate Arriving(w: Net, r: Promise, ds: seq<Deferred>)
    requires History(w)
  {
    && r in w.cells && w.cells[r].state < ADOPTED && Distinct(ds)
    && (forall i :: 0 <= i < |ds| ==> At(w, ds[i], r, Waiting))
  }

  // Nobody is settled by the step from `w` to `u`, and nobody new is there.
  ghost predicate Alike(w: Net, u: Net) {
    && u.cells.Keys == w.cells.Keys && u.root == w.root && u.depth == w.depth
    && forall p :: p in w.cells ==> u.cells[p].state == w.cells[p].state && u.cells[p].value == w.cells[p].value
  }

  lemma AlikeAdoptions(w: Net, u: Net)
    requires Adoptions(w) && Alike(w, u)
    ensures Adoptions(u)
  {
    forall p | p in u.cells ensures Leads(u, p) {
      assert Leads(w, p);
    }
  }

  lemma Arrivals(w: Net, r: Promise, ds: seq<Deferred>, id: nat)
    requires History(w) && Arriving(w, r, ds) && Holds(ds, id)
    ensures id in w.made && w.place[id] == Waiting && Target(w, id) == r && w.made[id] in ds
  {
    var i :| 0 <= i < |ds| && ds[i].id == id;
    assert At(w, ds[i], r, Waiting);
  }

  // The records are the same.
  ghost predicate SameRecords(w: Net, u: Net) {
    u.activity == w.activity && u.made == w.made && u.source == w.source
  }

  lemma DeliverAlike(w: Net, r: Promise, ds: seq<Deferred>)
    requires History(w) && Arriving(w, r, ds)
    ensures Alike(w, Deliver(w, r, ds)) && SameRecords(w, Deliver(w, r, ds))
    ensures Deliver(w, r, ds).place.Keys == w.place.Keys
  {
    hide Holds, At, Distinct, History;
  }

  lemma DeliverHistory(w: Net, r: Promise, ds: seq<Deferred>)
    requires History(w) && Arriving(w, r, ds)
    ensures History(Deliver(w, r, ds))
  {
    DeliverAlike(w, r, ds);
    hide Deliver, Arriving;
  }

  lemma DeliverAdoptions(w: Net, r: Promise, ds: seq<Deferred>)
    requires Adoptions(w) && History(w) && Arriving(w, r, ds)
    ensures Adoptions(Deliver(w, r, ds))
  {
    DeliverAlike(w, r, ds);
    hide Deliver, Adoptions, Arriving;
    AlikeAdoptions(w, Deliver(w, r, ds));
  }

  lemma DeliverOwners(w: World, r: Promise, ds: seq<Deferred>)
    requires History(w.net) && Owners(w) && Arriving(w.net, r, ds)
    ensures Owners(w.(net := Deliver(w.net, r, ds)))
  {
    var u := w.(net := Deliver(w.net, r, ds));
    DeliverAlike(w.net, r, ds);
    forall id | id in w.net.place && u.net.place[id] != Done ensures w.net.place[id] != Done {
      if Holds(ds, id) { Arrivals(w.net, r, ds, id); }
    }
    hide Deliver, Arriving;
    SameOwners(w, u);
  }

  // A promise that is owned stays pending as long as its owner is active.
  lemma SameOwners(w: World, u: World)
    requires Owners(w) && u.owner.Keys == u.net.cells.Keys
    requires forall r :: r in u.done && !u.done[r] ==> r in w.done && !w.done[r] && Kept(w, u, r.promise)
    requires forall id :: id in u.net.made && id in u.net.place && u.net.place[id] != Done ==>
      id in w.net.made && id in w.net.place && w.net.place[id] != Done && u.net.made[id] == w.net.made[id] && Kept(w, u, u.net.made[id].promise)
    ensures Owners(u)
  {
    forall r | r in u.done && !u.done[r] ensures Owned(u, r.promise, Capability(r)) {
      assert Owned(w, r.promise, Capability(r)) && Kept(w, u, r.promise);
    }
    forall id | id in u.net.made && id in u.net.place && u.net.place[id] != Done
      ensures Owned(u, u.net.made[id].promise, Registration(id))
    {
      assert Owned(w, w.net.made[id].promise, Registration(id)) && Kept(w, u, w.net.made[id].promise);
    }
  }

  ghost predicate Kept(w: World, u: World, p: Promise) {
    p in w.net.cells && p in w.owner && w.net.cells[p].state == PENDING ==>
      p in u.net.cells && p in u.owner && u.net.cells[p].state == PENDING && u.owner[p] == w.owner[p]
  }

  lemma DeliverWaits(w: Net, r: Promise, ds: seq<Deferred>)
    requires History(w) && Waits(w, ds) && Arriving(w, r, ds)
    ensures History(Deliver(w, r, ds)) && Waits(Deliver(w, r, ds), [])
  {
    DeliverHistory(w, r, ds);
    if w.cells[r].state == PENDING {
      PendingWaits(w, r, ds);
    } else {
      SettledWaits(w, r, ds);
    }
  }

  lemma PendingWaits(w: Net, r: Promise, ds: seq<Deferred>)
    requires History(w) && Waits(w, ds) && Arriving(w, r, ds) && w.cells[r].state == PENDING
    requires History(Deliver(w, r, ds))
    ensures Waits(Deliver(w, r, ds), [])
  {
    hide History, Target;
    var u := Deliver(w, r, ds);
    var was, now := w.cells[r].deferreds, u.cells[r].deferreds;
    assert now == was + ds;
    assert forall p :: p in w.cells && p != r ==> u.cells[p] == w.cells[p];
    DeliverTargets(w, r, ds);
    hide Deliver;
    forall i | 0 <= i < |now| ensures At(u, now[i], r, Waiting) {
      if i < |was| { assert At(w, was[i], r, Waiting); } else { assert At(w, ds[i - |was|], r, Waiting); }
    }
    assert Distinct(now) by {
      forall i, j | 0 <= i < j < |now| ensures now[i].id != now[j].id {
        if i < |was| <= j { assert Holds(ds, now[j].id); }
      }
    }
    forall p, i | p in u.cells && 0 <= i < |u.cells[p].deferreds| && p != r
      ensures At(u, u.cells[p].deferreds[i], p, Waiting)
    {
      assert At(w, w.cells[p].deferreds[i], p, Waiting);
    }
    forall id | id in u.made && u.place[id] == Waiting
      ensures Target(u, id) in u.cells && u.made[id] in u.cells[Target(u, id)].deferreds
    {
      if Holds(ds, id) { Arrivals(w, r, ds, id); }
    }
  }

  lemma DeliverTargets(w: Net, r: Promise, ds: seq<Deferred>)
    requires History(w) && Arriving(w, r, ds) && History(Deliver(w, r, ds))
    ensures var u := Deliver(w, r, ds);
            && u.made == w.made && u.place.Keys == w.place.Keys == w.made.Keys
            && (forall id :: id in w.made ==> Target(u, id) == Target(w, id))
            && (forall id :: id in w.made ==>
                  u.place[id] == if w.cells[r].state != PENDING && Holds(ds, id) then Queued else w.place[id])
  {
    hide Holds, At, Distinct, History, Deliver;
    DeliverAlike(w, r, ds);
    DeliverPlaces(w, r, ds);
    forall id | id in w.made ensures Target(Deliver(w, r, ds), id) == Target(w, id) { Sources(w, id); }
  }

  lemma DeliverPlaces(w: Net, r: Promise, ds: seq<Deferred>)
    requires History(w) && Arriving(w, r, ds)
    ensures var u := Deliver(w, r, ds);
            && u.place.Keys == w.place.Keys == w.made.Keys
            && forall id :: id in w.made ==> u.place[id] == if w.cells[r].state != PENDING && Holds(ds, id) then Queued else w.place[id]
  {
    hide Holds, At, Distinct;
  }

  lemma SettledWaits(w: Net, r: Promise, ds: seq<Deferred>)
    requires History(w) && Waits(w, ds) && Arriving(w, r, ds) && w.cells[r].state != PENDING
    requires History(Deliver(w, r, ds))
    ensures Waits(Deliver(w, r, ds), [])
  {
    hide History, Target, Distinct, Holds;
    var u := Deliver(w, r, ds);
    DeliverTargets(w, r, ds);
    DeliverAlike(w, r, ds);
    SettledLists(w, r, ds);
    hide Deliver;
    assert forall id :: !Holds([], id) by { NoneHeld(); }
    forall p, i | p in u.cells && 0 <= i < |u.cells[p].deferreds|
      ensures At(u, u.cells[p].deferreds[i], p, Waiting)
    {
      assert At(w, w.cells[p].deferreds[i], p, Waiting);
    }
    forall id | id in u.made && u.place[id] == Waiting
      ensures Target(u, id) in u.cells && u.made[id] in u.cells[Target(u, id)].deferreds
    {
      assert !Holds(ds, id);
    }
  }

  lemma NoneHeld()
    ensures forall id :: !Holds([], id)
  {
  }

  lemma SettledLists(w: Net, r: Promise, ds: seq<Deferred>)
    requires r in w.cells && w.cells[r].state != PENDING
    ensures var u := Deliver(w, r, ds);
            forall p :: p in w.cells ==> p in u.cells && u.cells[p].deferreds == w.cells[p].deferreds && u.cells[p].state == w.cells[p].state
  {
  }

  lemma DeliverQueues(w: Net, r: Promise, ds: seq<Deferred>)
    requires History(w) && Queues(w) && Arriving(w, r, ds)
    ensures History(Deliver(w, r, ds)) && Queues(Deliver(w, r, ds))
  {
    DeliverHistory(w, r, ds);
    if w.cells[r].state != PENDING {
      SettledQueues(w, r, ds);
    }
  }

  lemma SettledQueues(w: Net, r: Promise, ds: seq<Deferred>)
    requires History(w) && Queues(w) && Arriving(w, r, ds)
    requires w.cells[r].state != PENDING && History(Deliver(w, r, ds))
    ensures Queues(Deliver(w, r, ds))
  {
    hide History, Target, Distinct, Holds;
    var u := Deliver(w, r, ds);
    assert u.queue == w.queue + Jobs(r, ds);
    DeliverTargets(w, r, ds);
    SettledLists(w, r, ds);
    hide Deliver;
    SettledReady(w, u, r, ds);
    SettledOnce(w, r, ds);
    SettledQueued(w, u, r, ds);
  }

  lemma SettledReady(w: Net, u: Net, r: Promise, ds: seq<Deferred>)
    requires History(w) && Queues(w) && Arriving(w, r, ds) && History(u) && w.cells[r].state != PENDING
    requires u.queue == w.queue + Jobs(r, ds) && u.made == w.made
    requires forall p :: p in w.cells ==> p in u.cells && u.cells[p].state == w.cells[p].state
    requires forall id :: id in w.made ==> Target(u, id) == Target(w, id)
    requires forall id :: id in w.made ==> u.place[id] == if Holds(ds, id) then Queued else w.place[id]
    ensures forall i :: 0 <= i < |u.queue| ==> Ready(u, u.queue[i], Queued)
  {
    hide History, Target, Distinct;
    var n := |w.queue|;
    forall i | 0 <= i < |u.queue| ensures Ready(u, u.queue[i], Queued) {
      if i < n {
        assert Ready(w, w.queue[i], Queued);
      } else {
        assert At(w, ds[i - n], r, Waiting) && Holds(ds, ds[i - n].id) && u.queue[i] == Serve(r, ds[i - n]);
      }
    }
  }

  lemma SettledOnce(w: Net, r: Promise, ds: seq<Deferred>)
    requires History(w) && Queues(w) && Arriving(w, r, ds)
    ensures Once(w.queue + Jobs(r, ds))
  {
    hide History, Target, Holds;
    var n, q := |w.queue|, w.queue + Jobs(r, ds);
    forall i, j, id | 0 <= i < j < |q| && IsFor(q[i], id) ensures !IsFor(q[j], id) {
      if j < n {
        assert IsFor(w.queue[i], id);
      } else if i < n {
        assert Ready(w, w.queue[i], Queued) && At(w, ds[j - n], r, Waiting);
      }
    }
  }

  lemma SettledQueued(w: Net, u: Net, r: Promise, ds: seq<Deferred>)
    requires History(w) && Queues(w) && History(u)
    requires u.queue == w.queue + Jobs(r, ds) && u.made == w.made
    requires forall id :: id in w.made ==> u.place[id] == if Holds(ds, id) then Queued else w.place[id]
    ensures forall id :: id in u.made && u.place[id] == Queued ==> InQueue(u.queue, id)
  {
    hide Once, Ready;
    var n := |w.queue|;
    forall id | id in u.made && u.place[id] == Queued ensures InQueue(u.queue, id) {
      if Holds(ds, id) {
        var i :| 0 <= i < |ds| && ds[i].id == id;
        assert IsFor(u.queue[n + i], id);
      } else {
        var i :| 0 <= i < n && IsFor(w.queue[i], id);
        assert IsFor(u.queue[i], id);
      }
    }
  }

  lemma DeliverRuns(w: Net, r: Promise, ds: seq<Deferred>)
    requires History(w) && Runs(w) && Arriving(w, r, ds) && History(Deliver(w, r, ds))
    ensures Runs(Deliver(w, r, ds))
  {
    hide History, Target, Distinct, Holds;
    var u := Deliver(w, r, ds);
    DeliverAlike(w, r, ds);
    DeliverTargets(w, r, ds);
    hide Deliver;
    forall id | id in w.made && Holds(ds, id) ensures w.place[id] == Waiting && Target(w, id) == r {
      Arrivals(w, r, ds, id);
    }
  }

  lemma DeliverHandled(w: Net, r: Promise, ds: seq<Deferred>)
    requires r in w.cells
    ensures var u := Deliver(w, r, ds);
            forall p :: p in w.cells ==>
              p in u.cells && u.cells[p].handled == (w.cells[p].handled || (p == r && w.cells[p].state != PENDING && ds != []))
  {
    hide Holds;
  }

  lemma DeliverHandles(w: Net, r: Promise, ds: seq<Deferred>)
    requires History(w) && Handles(w, ds) && Arriving(w, r, ds) && History(Deliver(w, r, ds))
    ensures Handles(Deliver(w, r, ds), [])
  {
    hide History, Target, Distinct, Holds, Deliver;
    var u := Deliver(w, r, ds);
    DeliverAlike(w, r, ds);
    DeliverTargets(w, r, ds);
    DeliverHandled(w, r, ds);
    forall id | id in w.made && Holds(ds, id) ensures Target(w, id) == r && ds != [] {
      Arrivals(w, r, ds, id);
    }
    forall id | id in u.made ensures Heard(u, id, []) {
      assert Heard(w, id, ds);
    }
    forall p | p in u.cells && u.cells[p].handled ensures Settled(u, p) && Followed(u, p) {
      if w.cells[p].handled {
        var id :| id in w.made && Target(w, id) == p;
        assert Target(u, id) == p;
      } else {
        assert At(w, ds[0], r, Waiting) && Target(u, ds[0].id) == p;
      }
    }
  }

  lemma DeliverKeeps(w: Net, r: Promise, ds: seq<Deferred>)
    requires InFlight(w, ds) && Arriving(w, r, ds)
    ensures InFlight(Deliver(w, r, ds), [])
  {
    hide Deliver, Adoptions, History, Waits, Queues, Runs, Handles, Arriving;
    DeliverAdoptions(w, r, ds);
    DeliverWaits(w, r, ds);
    DeliverQueues(w, r, ds);
    DeliverRuns(w, r, ds);
    DeliverHandles(w, r, ds);
  }

  // ----- A promise leaves the pending state -----

  // Whoever owned it is done with it.
  ghost predicate Released(w: World, e: Promise) {
    e in w.net.cells && w.net.cells[e].state == PENDING && e in w.owner && !Active(w, w.owner[e])
  }

  // `l` is `w` with `e` settled; what followed it follows `t` now.
  ghost predicate Left(w: Net, l: Net, e: Promise, t: Promise)
    requires History(w) && History(l)
  {
    && e in w.cells && w.cells[e].state == PENDING && l.cells.Keys == w.cells.Keys
    && l.cells[e].state != PENDING && l.cells[e].deferreds == [] && l.cells[e].handled == w.cells[e].handled
    && (forall p :: p in w.cells && p != e ==> l.cells[p] == w.cells[p])
    && SameRecords(w, l) && l.place == w.place
    && (forall id :: id in w.made ==> Target(l, id) == if Target(w, id) == e then t else Target(w, id))
    && (l.queue == w.queue || (l.queue == w.queue + [Unhandled(e)] && l.cells[e].state == REJECTED))
    && t in l.cells && l.cells[t].state < ADOPTED
  }

  lemma LeftOwners(w: World, l: World, e: Promise, t: Promise)
    requires History(w.net) && History(l.net) && Left(w.net, l.net, e, t) && Owners(w) && Released(w, e)
    requires l.done == w.done && l.owner == w.owner
    ensures Owners(l)
  {
    forall p | p != e ensures Kept(w, l, p) {
    }
    forall r | r in w.done && !w.done[r] ensures r.promise != e {
      assert Owned(w, r.promise, Capability(r)) && Active(w, Capability(r));
    }
    forall id | id in w.net.made && id in w.net.place && w.net.place[id] != Done ensures w.net.made[id].promise != e {
      assert Owned(w, w.net.made[id].promise, Registration(id)) && Active(w, Registration(id));
    }
    hide Left, History, Released, Owners, Kept;
    assert l.owner.Keys == l.net.cells.Keys by { }
    SameOwners(w, l);
  }

  lemma LeftWaits(w: Net, l: Net, e: Promise, t: Promise)
    requires History(w) && History(l) && Left(w, l, e, t) && Waits(w, [])
    ensures Waits(l, w.cells[e].deferreds) && Arriving(l, t, w.cells[e].deferreds)
  {
    hide Target;
    var ds := w.cells[e].deferreds;
    forall p, i | p in l.cells && 0 <= i < |l.cells[p].deferreds|
      ensures At(l, l.cells[p].deferreds[i], p, Waiting) && !Holds(ds, l.cells[p].deferreds[i].id)
    {
    }
    forall id | id in l.made && l.place[id] == Waiting
      ensures Holds(ds, id) || (Target(l, id) in l.cells && l.made[id] in l.cells[Target(l, id)].deferreds)
    {
    }
    forall i | 0 <= i < |ds| ensures At(l, ds[i], t, Waiting) {
    }
  }

  lemma LeftQueues(w: Net, l: Net, e: Promise, t: Promise)
    requires History(w) && History(l) && Left(w, l, e, t) && Queues(w)
    ensures Queues(l)
  {
    hide Target;
    var n := |w.queue|;
    forall i | 0 <= i < |l.queue| ensures Ready(l, l.queue[i], Queued) {
      if i < n { assert Ready(w, w.queue[i], Queued); }
    }
    forall id | id in l.made && l.place[id] == Queued ensures InQueue(l.queue, id) {
      var i :| 0 <= i < n && IsFor(w.queue[i], id);
      assert IsFor(l.queue[i], id);
    }
  }

  lemma LeftRuns(w: Net, l: Net, e: Promise, t: Promise)
    requires History(w) && History(l) && Left(w, l, e, t) && Runs(w)
    ensures Runs(l)
  {
    hide Target;
    forall id | id in l.made && l.place[id] != Waiting ensures Settled(l, Target(l, id)) {
      assert Settled(w, Target(w, id));
    }
  }

  // What follows a pending promise is in its list.
  lemma FollowersWait(w: Net, e: Promise, id: nat)
    requires History(w) && Waits(w, []) && Runs(w) && e in w.cells && w.cells[e].state == PENDING
    requires id in w.made && Target(w, id) == e
    ensures Holds(w.cells[e].deferreds, id)
  {
    hide Target, Distinct;
    assert !Settled(w, e);
    assert w.place[id] == Waiting && !Holds([], id);
    var i :| 0 <= i < |w.cells[e].deferreds| && w.cells[e].deferreds[i] == w.made[id];
  }

  lemma LeftHandles(w: Net, l: Net, e: Promise, t: Promise)
    requires History(w) && History(l) && Left(w, l, e, t) && Waits(w, []) && Runs(w) && Handles(w, [])
    ensures Handles(l, w.cells[e].deferreds)
  {
    hide Target, Distinct, Waits, Runs, Holds, History, At;
    var ds := w.cells[e].deferreds;
    forall id | id in l.made ensures Heard(l, id, ds) {
      assert Heard(w, id, []) && !Holds([], id) by { NoneHeld(); }
      if Target(w, id) == e { FollowersWait(w, e, id); }
    }
    forall p | p in l.cells && l.cells[p].handled ensures Settled(l, p) && Followed(l, p) {
      assert Settled(w, p) && Followed(w, p);
      var id :| id in w.made && Target(w, id) == p;
      assert Target(l, id) == p;
    }
  }

  // All but the shape of the adoptions, which depends on where `e` has gone.
  lemma LeftKeeps(w: Net, l: Net, e: Promise, t: Promise)
    requires InFlight(w, []) && History(l) && Left(w, l, e, t) && Adoptions(l)
    ensures InFlight(l, w.cells[e].deferreds) && Arriving(l, t, w.cells[e].deferreds)
  {
    hide Adoptions, History, Waits, Queues, Runs, Handles, Arriving, Left;
    LeftWaits(w, l, e, t);
    LeftQueues(w, l, e, t);
    LeftRuns(w, l, e, t);
    LeftHandles(w, l, e, t);
  }

  lemma LeaveFrames(w: Net, e: Promise, state: nat, v: Value)
    requires e in w.cells && w.cells[e].state == PENDING && Open(w, e) && History(w)
    requires state == REJECTED || (state == FULFILLED && (v.Plain? || v.SelfResolution?))
    ensures var l := Leave(w, e, state, v);
            History(l) && Left(w, l, e, e)
  {
  }

  lemma LeaveAdoptions(w: Net, e: Promise, state: nat, v: Value)
    requires Adoptions(w) && e in w.cells && w.cells[e].state == PENDING && state < ADOPTED
    ensures Adoptions(Leave(w, e, state, v))
  {
    var l := Leave(w, e, state, v);
    forall p | p in l.cells ensures Leads(l, p) {
      assert Leads(w, p) && Leads(w, w.root[p]);
    }
  }

  lemma SettleKeeps(w: World, e: Promise, state: nat, v: Value)
    requires Inv(w) && Released(w, e) && Open(w.net, e)
    requires state == REJECTED || (state == FULFILLED && (v.Plain? || v.SelfResolution?))
    ensures Inv(w.(net := Settle(w.net, e, state, v)))
  {
    var n := w.net;
    var l := Leave(n, e, state, v);
    hide Owners, Waits, Queues, Runs, Handles, Left, Leave, History, Adoptions, Deliver, Arriving;
    LeaveFrames(n, e, state, v);
    LeaveAdoptions(n, e, state, v);
    LeftKeeps(n, l, e, e);
    LeftOwners(w, w.(net := l), e, e);
    DeliverKeeps(l, e, n.cells[e].deferreds);
    DeliverOwners(w.(net := l), e, n.cells[e].deferreds);
  }

  lemma RedirectFrames(w: Net, e: Promise, q: Promise)
    requires e in w.cells && w.cells[e].state == PENDING && Open(w, e) && History(w)
    requires q in w.root && w.root[q] in w.cells && w.root[q] != e && w.cells[w.root[q]].state < ADOPTED
    ensures var l := Leave(Redirect(w, e, q), e, ADOPTED, Promised(q));
            History(l) && Left(w, l, e, w.root[q])
    ensures Redirect(w, e, q).root[e] == w.root[q] && Redirect(w, e, q).cells == w.cells
  {
    hide Redirect;
    RedirectRoots(w, e, q);
  }

  lemma RedirectRoots(w: Net, e: Promise, q: Promise)
    requires q in w.root && w.root.Keys == w.depth.Keys
    ensures var u := Redirect(w, e, q);
            && u == w.(root := u.root, depth := u.depth) && u.root.Keys == w.root.Keys && u.depth.Keys == w.depth.Keys
            && forall p :: p in w.root ==> u.root[p] == if w.root[p] == e then w.root[q] else w.root[p]
  {
  }

  lemma RedirectAdoptions(w: Net, e: Promise, q: Promise)
    requires Adoptions(w) && e in w.cells && w.cells[e].state == PENDING && q in w.cells && w.root[q] != e
    ensures Adoptions(Leave(Redirect(w, e, q), e, ADOPTED, Promised(q)))
  {
    hide Adoptions;
    RootIsOpen(w, q);
    RootIsOpen(w, e);
    var l := Leave(Redirect(w, e, q), e, ADOPTED, Promised(q));
    assert l.root.Keys == w.root.Keys && l.depth.Keys == w.root.Keys;
    assert forall p :: p in w.root ==> l.root[p] == if w.root[p] == e then w.root[q] else w.root[p];
    assert forall p :: p in w.root ==> l.depth[p] == if w.root[p] == e then w.depth[p] + w.depth[q] + 1 else w.depth[p];
    assert l.cells == w.cells[e := l.cells[e]] && l.cells[e].state == ADOPTED && l.cells[e].value == Promised(q);
    hide Redirect, Leave;
    forall p | p in w.cells ensures l.root.Keys == l.cells.Keys == l.depth.Keys && Leads(l, p) {
      RedirectedLeads(w, l, e, q, p);
    }
    assert Adoptions(l) by { Conclude(l); }
  }

  lemma Conclude(l: Net)
    requires l.root.Keys == l.cells.Keys && l.depth.Keys == l.cells.Keys && forall p :: p in l.cells ==> Leads(l, p)
    ensures Adoptions(l)
  {
  }

  lemma RedirectedLeads(w: Net, l: Net, e: Promise, q: Promise, p: Promise)
    requires Adoptions(w) && e in w.cells && w.cells[e].state == PENDING && q in w.cells && w.root[q] != e
    requires e in l.cells && l.cells == w.cells[e := l.cells[e]] && l.cells[e].state == ADOPTED && l.cells[e].value == Promised(q)
    requires l.root.Keys == w.root.Keys && l.depth.Keys == w.root.Keys
    requires forall p :: p in w.root ==> l.root[p] == if w.root[p] == e then w.root[q] else w.root[p]
    requires forall p :: p in w.root ==> l.depth[p] == if w.root[p] == e then w.depth[p] + w.depth[q] + 1 else w.depth[p]
    requires p in w.cells
    ensures l.root.Keys == l.cells.Keys == l.depth.Keys && Leads(l, p)
  {
    assert Leads(w, p) && Leads(w, q) && Leads(w, e) && Leads(w, w.root[p]) && Leads(w, w.root[q]);
  }

  lemma RootIsOpen(n: Net, q: Promise)
    requires Adoptions(n) && (q in n.root || q in n.cells)
    ensures q in n.cells && q in n.root && n.root[q] in n.cells && n.cells[n.root[q]].state < ADOPTED && n.root[n.root[q]] == n.root[q]
    ensures n.root.Keys == n.depth.Keys
  {
    assert Leads(n, q) && Leads(n, n.root[q]);
  }

  lemma AdoptKeeps(w: World, e: Promise, q: Promise)
    requires Inv(w) && Released(w, e) && Open(w.net, e)
    requires q in w.net.root && w.net.root[q] in w.net.cells && w.net.root[q] != e
    ensures Inv(w.(net := Adopt(w.net, e, q)))
  {
    hide Owners, Waits, Queues, Runs, Handles, Left, Leave, History, Adoptions, Deliver, Arriving, Redirect;
    var n := w.net;
    var r := n.root[q];
    RootIsOpen(n, q);
    var u := Redirect(n, e, q);
    RedirectFrames(n, e, q);
    RedirectAdoptions(n, e, q);
    var l := Leave(u, e, ADOPTED, Promised(q));
    LeftKeeps(n, l, e, r);
    LeftOwners(w, w.(net := l), e, r);
    DeliverKeeps(l, r, n.cells[e].deferreds);
    DeliverOwners(w.(net := l), r, n.cells[e].deferreds);
  }

  lemma ThenableKeeps(w: World, e: Promise, k: Resolver)
    requires Inv(w) && Released(w, e) && k !in w.done && k.promise == e
    ensures Inv(w.(done := w.done[k := false], owner := w.owner[e := Capability(k)]))
  {
    var u := w.(done := w.done[k := false], owner := w.owner[e := Capability(k)]);
    hide InFlight;
    forall r | r in u.done && !u.done[r] ensures Owned(u, r.promise, Capability(r)) {
      if r != k { assert Owned(w, r.promise, Capability(r)) && Active(w, Capability(r)); }
    }
    forall id | id in u.net.made && id in u.net.place && u.net.place[id] != Done
      ensures Owned(u, u.net.made[id].promise, Registration(id))
    {
      assert Owned(w, w.net.made[id].promise, Registration(id)) && Active(w, Registration(id));
    }
  }

  lemma ResolveKeeps(w: World, e: Promise, v: Value, k: Resolver?)
    requires Inv(w) && Released(w, e) && Resolvable(w, e, v, k) && Open(w.net, e)
    ensures Inv(Resolve(w, e, v, k))
  {
    hide Inv, Released, Settle, Adopt;
    match v
    case Promised(q) => if q == e { SettleKeeps(w, e, REJECTED, SelfResolution); } else { AdoptKeeps(w, e, q); }
    case Poisoned(x) => SettleKeeps(w, e, REJECTED, x);
    case Thenable(_) => ThenableKeeps(w, e, k);
    case Plain(_) => SettleKeeps(w, e, FULFILLED, v);
    case SelfResolution => SettleKeeps(w, e, FULFILLED, v);
  }

  // ----- The other changes of a step -----

  // A resolver is called.
  lemma SpendKeeps(w: World, r: Resolver)
    requires Inv(w) && r in w.done && !w.done[r]
    ensures var u := w.(done := w.done[r := true]);
            Inv(u) && Released(u, r.promise) && Open(u.net, r.promise)
  {
    hide InFlight, Open;
    var u := w.(done := w.done[r := true]);
    assert Owned(w, r.promise, Capability(r));
    SpenderOpens(w, r);
    forall p ensures Kept(w, u, p) { }
    SameOwners(w, u);
  }

  // Registrations that are out of the lists move on; nothing changes for the promises.
  ghost predicate Moved(n: Net, u: Net) {
    && u.cells == n.cells && u.root == n.root && u.depth == n.depth && u.made == n.made && u.source == n.source
    && u.place.Keys == n.place.Keys && forall id :: id in n.place ==> (u.place[id] == Waiting <==> n.place[id] == Waiting)
  }

  lemma MovedHistory(n: Net, u: Net)
    requires History(n) && Moved(n, u)
    ensures History(u) && forall i :: i in n.made ==> Target(u, i) == Target(n, i)
    ensures u.cells == n.cells && u.made == n.made && u.place.Keys == n.place.Keys
    ensures forall id :: id in n.place ==> (u.place[id] == Waiting <==> n.place[id] == Waiting)
  {
  }

  lemma MovedWaits(n: Net, u: Net)
    requires History(n) && History(u) && Moved(n, u) && Waits(n, [])
    ensures Waits(u, [])
  {
    MovedHistory(n, u);
    hide History, Target;
    forall p, i | p in u.cells && 0 <= i < |u.cells[p].deferreds|
      ensures At(u, u.cells[p].deferreds[i], p, Waiting) && !Holds([], u.cells[p].deferreds[i].id)
    {
      assert At(n, n.cells[p].deferreds[i], p, Waiting);
    }
  }

  lemma MovedHandles(n: Net, u: Net)
    requires History(n) && History(u) && Moved(n, u) && Handles(n, [])
    ensures Handles(u, [])
  {
    MovedHistory(n, u);
    hide History, Target;
    forall i | i in u.made ensures Heard(u, i, []) { assert Heard(n, i, []); }
    forall p | p in u.cells && u.cells[p].handled ensures Settled(u, p) && Followed(u, p) {
      assert Followed(n, p);
      var i :| i in n.made && Target(n, i) == p;
      assert Target(u, i) == p;
    }
  }

  lemma MovedKeeps(n: Net, u: Net)
    requires InFlight(n, []) && Moved(n, u)
    ensures History(u) && Adoptions(u) && Waits(u, []) && Handles(u, [])
  {
    hide History, Adoptions, Waits, Queues, Runs, Handles;
    MovedHistory(n, u);
    MovedWaits(n, u);
    MovedHandles(n, u);
    AlikeAdoptions(n, u);
  }

  lemma TakeQueues(n: Net, u: Net, p: Promise, d: Deferred, at: Place)
    requires History(n) && History(u) && Queues(n) && Moved(n, u)
    requires n.queue != [] && n.queue[0] == Serve(p, d) && u.queue == n.queue[1..]
    requires d.id in n.place && at != Queued && u.place == n.place[d.id := at]
    ensures Queues(u)
  {
    MovedHistory(n, u);
    hide History, Target;
    forall i | 0 <= i < |u.queue| ensures Ready(u, u.queue[i], Queued) {
      assert Ready(n, n.queue[i + 1], Queued);
      assert IsFor(n.queue[0], d.id) && !IsFor(n.queue[i + 1], d.id);
    }
    forall id | id in u.made && u.place[id] == Queued ensures InQueue(u.queue, id) {
      var i :| 0 <= i < |n.queue| && IsFor(n.queue[i], id);
      assert i > 0;
      assert IsFor(u.queue[i - 1], id);
    }
    forall i, j, id | 0 <= i < j < |u.queue| && IsFor(u.queue[i], id) ensures !IsFor(u.queue[j], id) {
      assert IsFor(n.queue[i + 1], id);
    }
  }

  lemma TakeRuns(n: Net, u: Net, p: Promise, d: Deferred, at: Place)
    requires History(n) && History(u) && Runs(n) && Moved(n, u) && n.activity.Idle?
    requires Settled(n, p) && At(n, d, p, Queued) && u.place == n.place[d.id := at]
    requires (at == Running && u.activity == Busy(p, d)) || (at == Done && u.activity.Idle?)
    ensures Runs(u)
  {
    hide History, Target, Moved;
    MovedHistory(n, u);
  }

  lemma HeadIsReady(n: Net)
    requires History(n) && Queues(n) && n.queue != []
    ensures Ready(n, n.queue[0], Queued)
  {
  }

  lemma TakeMoved(n: Net, p: Promise, d: Deferred, at: Place, a: Activity)
    requires History(n) && n.queue != [] && At(n, d, p, Queued) && at != Waiting
    ensures d.id in n.place && Moved(n, Take(n, d.id, at, a))
  {
  }

  lemma ServeKeeps(n: Net, p: Promise, d: Deferred, at: Place, a: Activity)
    requires InFlight(n, []) && n.queue != [] && n.queue[0] == Serve(p, d) && n.activity.Idle?
    requires (at == Running && a == Busy(p, d)) || (at == Done && a.Idle?)
    ensures InFlight(Take(n, d.id, at, a), [])
    ensures At(n, d, p, Queued) && Settled(n, p)
  {
    hide Adoptions, Waits, Queues, Runs, Handles, Target, Settled, History, At, Moved;
    HeadIsReady(n);
    TakeMoved(n, p, d, at, a);
    var u := Take(n, d.id, at, a);
    MovedKeeps(n, u);
    TakeQueues(n, u, p, d, at);
    TakeRuns(n, u, p, d, at);
  }

  lemma PopQueues(n: Net)
    requires History(n) && Queues(n) && n.queue != [] && n.queue[0].Unhandled?
    requires History(n.(queue := n.queue[1..]))
    ensures Queues(n.(queue := n.queue[1..]))
  {
    var u := n.(queue := n.queue[1..]);
    MovedHistory(n, u);
    hide History, Target;
    forall i | 0 <= i < |u.queue| ensures Ready(u, u.queue[i], Queued) {
      assert Ready(n, n.queue[i + 1], Queued);
    }
    forall id | id in u.made && u.place[id] == Queued ensures InQueue(u.queue, id) {
      var i :| 0 <= i < |n.queue| && IsFor(n.queue[i], id);
      assert IsFor(u.queue[i - 1], id);
    }
  }

  lemma PopRuns(n: Net, u: Net)
    requires History(n) && Runs(n) && History(u) && Moved(n, u) && u.place == n.place && u.activity == n.activity
    ensures Runs(u)
  {
    hide History, Target, Moved;
    MovedHistory(n, u);
  }

  lemma PopMoved(n: Net)
    requires n.queue != []
    ensures Moved(n, n.(queue := n.queue[1..]))
  {
  }

  lemma PopKeeps(n: Net)
    requires InFlight(n, []) && n.queue != [] && n.queue[0].Unhandled?
    ensures InFlight(n.(queue := n.queue[1..]), [])
  {
    hide Adoptions, Waits, Queues, Runs, Handles, History, Moved, Target;
    var u := n.(queue := n.queue[1..]);
    PopMoved(n);
    MovedKeeps(n, u);
    PopQueues(n);
    PopRuns(n, u);
  }

  lemma RunningAt(n: Net)
    requires History(n) && Runs(n) && n.activity.Busy?
    ensures Settled(n, n.activity.p) && At(n, n.activity.d, n.activity.p, Running)
  {
  }

  lemma FinishMoved(n: Net)
    requires History(n) && n.activity.Busy? && At(n, n.activity.d, n.activity.p, Running)
    ensures Moved(n, Finish(n, n.activity.d.id))
  {
  }

  lemma FinishKeeps(n: Net)
    requires InFlight(n, []) && n.activity.Busy?
    ensures At(n, n.activity.d, n.activity.p, Running) && InFlight(Finish(n, n.activity.d.id), [])
  {
    hide Adoptions, Waits, Queues, Runs, Handles, Target, History, At, Moved, Finish;
    var u := Finish(n, n.activity.d.id);
    RunningAt(n);
    FinishMoved(n);
    MovedKeeps(n, u);
    FinishQueues(n, u);
    FinishRuns(n, u);
  }

  lemma FinishQueues(n: Net, u: Net)
    requires History(n) && History(u) && Queues(n) && Moved(n, u)
    requires n.activity.Busy? && At(n, n.activity.d, n.activity.p, Running) && u == Finish(n, n.activity.d.id)
    ensures Queues(u)
  {
    MovedHistory(n, u);
    var id := n.activity.d.id;
    assert u.queue == n.queue && u.cells == n.cells && u.made == n.made && u.place == n.place[id := Done];
    hide History, Target, Moved, Finish;
    forall i | 0 <= i < |u.queue| ensures Ready(u, u.queue[i], Queued) {
      assert Ready(n, n.queue[i], Queued);
    }
  }

  lemma FinishRuns(n: Net, u: Net)
    requires History(n) && History(u) && Runs(n) && Moved(n, u)
    requires n.activity.Busy? && At(n, n.activity.d, n.activity.p, Running) && u == Finish(n, n.activity.d.id)
    ensures Runs(u)
  {
    hide History, Target, Moved;
    MovedHistory(n, u);
  }

  // ----- New promises and registrations -----

  lemma CreateAdoptions(n: Net, c: Promise)
    requires Adoptions(n) && c !in n.cells
    ensures Adoptions(Create(n, c))
  {
    var u := Create(n, c);
    forall p | p in u.cells ensures Leads(u, p) {
      if p != c { assert Leads(n, p); }
    }
  }

  // More promises are there, none of them settled or with registrations, and more registrations,
  // which are in flight.
  ghost predicate Grown(n: Net, u: Net, ds: seq<Deferred>)
    requires History(n) && History(u)
  {
    && u.queue == n.queue && u.activity == n.activity
    && (forall p :: p in n.cells ==> p in u.cells && u.cells[p] == n.cells[p])
    && (forall p :: p in u.cells && p !in n.cells ==> u.cells[p] == Cell(PENDING, false, Plain(0), []))
    && (forall id :: id in n.made ==>
          id in u.made && u.made[id] == n.made[id] && u.place[id] == n.place[id] && Target(u, id) == Target(n, id)
          && !Holds(ds, id))
    && (forall id :: id in u.made && id !in n.made ==> u.place[id] == Waiting && Holds(ds, id) && Target(u, id) in u.cells)
  }

  lemma GrownWaits(n: Net, u: Net, ds: seq<Deferred>)
    requires History(n) && History(u) && Waits(n, []) && Grown(n, u, ds)
    ensures Waits(u, ds)
  {
    hide History, Target;
    forall p, i | p in u.cells && 0 <= i < |u.cells[p].deferreds|
      ensures At(u, u.cells[p].deferreds[i], p, Waiting) && !Holds(ds, u.cells[p].deferreds[i].id)
    {
      assert At(n, n.cells[p].deferreds[i], p, Waiting);
    }
  }

  lemma GrownQueues(n: Net, u: Net, ds: seq<Deferred>)
    requires History(n) && History(u) && Queues(n) && Grown(n, u, ds)
    ensures Queues(u)
  {
    hide History, Target;
    forall i | 0 <= i < |u.queue| ensures Ready(u, u.queue[i], Queued) {
      assert Ready(n, n.queue[i], Queued);
    }
  }

  lemma GrownRuns(n: Net, u: Net, ds: seq<Deferred>)
    requires History(n) && History(u) && Runs(n) && Grown(n, u, ds)
    ensures Runs(u)
  {
    hide History, Target;
  }

  lemma GrownHandles(n: Net, u: Net, ds: seq<Deferred>)
    requires History(n) && History(u) && Handles(n, []) && Grown(n, u, ds)
    ensures Handles(u, ds)
  {
    hide History, Target;
    forall i | i in u.made ensures Heard(u, i, ds) {
      if i in n.made { assert Heard(n, i, []); }
    }
    forall p | p in u.cells && u.cells[p].handled ensures Settled(u, p) && Followed(u, p) {
      assert Followed(n, p);
      var i :| i in n.made && Target(n, i) == p;
      assert Target(u, i) == p;
    }
  }

  lemma GrownKeeps(n: Net, u: Net, ds: seq<Deferred>)
    requires InFlight(n, []) && History(u) && Adoptions(u) && Grown(n, u, ds)
    ensures InFlight(u, ds)
  {
    hide Adoptions, Waits, Queues, Runs, Handles, Target, History, Grown;
    GrownWaits(n, u, ds);
    GrownQueues(n, u, ds);
    GrownRuns(n, u, ds);
    GrownHandles(n, u, ds);
  }

  lemma CreateKeeps(n: Net, c: Promise)
    requires InFlight(n, []) && c !in n.cells
    ensures InFlight(Create(n, c), [])
  {
    hide Waits, Queues, Runs, Handles;
    CreateAdoptions(n, c);
    CreateGrown(n, c);
    hide Adoptions, History, Grown, Create;
    GrownKeeps(n, Create(n, c), []);
  }

  lemma CreateGrown(n: Net, c: Promise)
    requires History(n) && c !in n.cells && n.root.Keys == n.cells.Keys
    ensures History(Create(n, c)) && Grown(n, Create(n, c), [])
  {
    hide History, Holds, Target, Create;
    CreateHistory(n, c);
    CreateFacts(n, c);
    NoneHeld();
  }

  lemma CreateFacts(n: Net, c: Promise)
    requires History(n) && History(Create(n, c)) && c !in n.cells && n.root.Keys == n.cells.Keys
    ensures var u := Create(n, c);
            && u.cells == n.cells[c := Cell(PENDING, false, Plain(0), [])] && u.queue == n.queue && u.activity == n.activity
            && u.made == n.made && u.place == n.place && n.place.Keys == n.made.Keys
            && forall id :: id in n.made ==> Target(u, id) == Target(n, id)
  {
    forall id | id in n.made ensures Target(Create(n, c), id) == Target(n, id) {
      Sources(n, id);
    }
  }

  lemma CreateHistory(n: Net, c: Promise)
    requires History(n) && c !in n.cells && n.root.Keys == n.cells.Keys
    ensures History(Create(n, c))
  {
  }

  lemma Sources(n: Net, id: nat)
    requires History(n) && id in n.made
    ensures id in n.source && n.source[id] in n.cells && n.source[id] in n.root && id in n.place
  {
  }

  // What the new record does to the maps of the history.
  ghost predicate Recorded(n: Net, u: Net, p: Promise, d: Deferred) {
    && d.id == |n.made| && u.made == n.made[d.id := d] && u.source == n.source[d.id := p] && u.place == n.place[d.id := Waiting]
    && u.cells == n.cells[d.promise := Cell(PENDING, false, Plain(0), [])] && u.root == n.root[d.promise := d.promise]
    && d.promise !in n.cells && d.promise !in n.root && p in n.cells && p in n.root && n.root[p] in n.cells
  }

  lemma RegisterHistory(n: Net, u: Net, p: Promise, d: Deferred)
    requires History(n) && Recorded(n, u, p, d)
    ensures History(u) && d.id !in n.made
  {
    assert d.id !in n.made;
    assert |u.made| == |n.made| + 1;
  }

  lemma RegisterTargets(n: Net, u: Net, p: Promise, d: Deferred)
    requires History(n) && Recorded(n, u, p, d) && History(u)
    ensures At(u, d, n.root[p], Waiting) && Target(u, d.id) == n.root[p]
    ensures forall id :: id in n.made && id != d.id ==> Target(u, id) == Target(n, id)
  {
    hide History, Holds;
    Sources(u, d.id);
    assert u.made[d.id] == d;
    forall id | id in n.made && id != d.id ensures id in u.made && Target(u, id) == Target(n, id) {
      Sources(n, id);
    }
  }

  lemma RegisterGrown(n: Net, p: Promise, d: Deferred)
    requires History(n) && d.promise !in n.cells && n.root.Keys == n.cells.Keys && p in n.cells && n.root[p] in n.cells
    requires d.id == |n.made|
    ensures History(Register(n, p, d)) && Grown(n, Register(n, p, d), [d])
    ensures At(Register(n, p, d), d, n.root[p], Waiting)
  {
    hide History, At, Target, Register, Create, Holds, Grown;
    var u := Register(n, p, d);
    RegisterFacts(n, p, d);
    RegisterHistory(n, u, p, d);
    RegisterTargets(n, u, p, d);
    HoldsOne(d);
    GrownByOne(n, u, d);
  }

  lemma GrownByOne(n: Net, u: Net, d: Deferred)
    requires History(n) && History(u) && d.id !in n.made && u.made == n.made[d.id := d] && u.queue == n.queue && u.activity == n.activity
    requires n.place.Keys == n.made.Keys && u.place == n.place[d.id := Waiting]
    requires d.promise !in n.cells && u.cells == n.cells[d.promise := Cell(PENDING, false, Plain(0), [])]
    requires Target(u, d.id) in u.cells && forall id :: id in n.made && id != d.id ==> Target(u, id) == Target(n, id)
    requires forall id :: Holds([d], id) <==> id == d.id
    ensures Grown(n, u, [d])
  {
    hide History, Target, Holds;
  }

  lemma RegisterFacts(n: Net, p: Promise, d: Deferred)
    requires History(n) && d.promise !in n.cells && n.root.Keys == n.cells.Keys && p in n.cells && n.root[p] in n.cells
    requires d.id == |n.made|
    ensures var u := Register(n, p, d);
            && Recorded(n, u, p, d) && u.queue == n.queue && u.activity == n.activity
            && n.place.Keys == n.made.Keys
  {
  }

  lemma HoldsOne(d: Deferred)
    ensures forall id :: Holds([d], id) <==> id == d.id
  {
    assert [d][0].id == d.id;
  }

  lemma RegisterKeeps(n: Net, p: Promise, d: Deferred)
    requires InFlight(n, []) && d.promise !in n.cells && p in n.cells && d.id == |n.made|
    ensures n.root[p] in n.cells
    ensures InFlight(Register(n, p, d), [d]) && Arriving(Register(n, p, d), n.root[p], [d])
  {
    var u := Register(n, p, d);
    hide Waits, Queues, Runs, Handles;
    RootIsOpen(n, p);
    RegisterGrown(n, p, d);
    CreateAdoptions(n, d.promise);
    AlikeAdoptions(Create(n, d.promise), u);
    hide Adoptions, History, Grown, At;
    GrownKeeps(n, u, [d]);
  }

  lemma NewKeeps(w: World, p: Promise, r: Resolver)
    requires Inv(w) && p !in w.net.cells && r !in w.done && r.promise == p
    ensures Inv(World(Create(w.net, p), w.done[r := false], w.owner[p := Capability(r)], w.reported))
  {
    hide InFlight;
    var u := World(Create(w.net, p), w.done[r := false], w.owner[p := Capability(r)], w.reported);
    CreateKeeps(w.net, p);
    forall s | s in u.done && !u.done[s] ensures Owned(u, s.promise, Capability(s)) {
      if s != r { assert Owned(w, s.promise, Capability(s)); }
    }
    forall id | id in u.net.made && id in u.net.place && u.net.place[id] != Done
      ensures Owned(u, u.net.made[id].promise, Registration(id))
    {
      assert Owned(w, w.net.made[id].promise, Registration(id));
    }
  }

  lemma RegisterOwners(w: World, p: Promise, d: Deferred)
    requires Owners(w) && d.promise !in w.net.cells && d.id !in w.net.made
    ensures Owners(w.(net := Register(w.net, p, d), owner := w.owner[d.promise := Registration(d.id)]))
  {
    var u := w.(net := Register(w.net, p, d), owner := w.owner[d.promise := Registration(d.id)]);
    forall r | r in u.done && !u.done[r] ensures Owned(u, r.promise, Capability(r)) {
      assert Owned(w, r.promise, Capability(r));
    }
    forall id | id in u.net.made && id in u.net.place && u.net.place[id] != Done
      ensures Owned(u, u.net.made[id].promise, Registration(id))
    {
      if id != d.id { assert Owned(w, w.net.made[id].promise, Registration(id)); }
    }
  }

  lemma ThenKeeps(w: World, p: Promise, f: bool, g: bool, child: Promise)
    requires Inv(w) && p in w.net.cells && child !in w.net.cells
    ensures Inv(Step(w, Then(p, f, g, child)))
  {
    hide InFlight, Owners, Deliver, Register, Arriving;
    var d := Deferred(|w.net.made|, f, g, child);
    FollowedOpens(w, p);
    RegisterKeeps(w.net, p, d);
    FreshId(w.net);
    RegisterOwners(w, p, d);
    var u := w.(net := Register(w.net, p, d), owner := w.owner[child := Registration(d.id)]);
    FlightHistory(u.net, [d]);
    DeliverKeeps(u.net, w.net.root[p], [d]);
    DeliverOwners(u, w.net.root[p], [d]);
  }

  lemma FreshId(n: Net)
    requires InFlight(n, [])
    ensures |n.made| !in n.made && |n.made| !in n.place
  {
    hide Adoptions, Waits, Queues, Runs, Handles;
  }

  lemma FlightHistory(n: Net, ds: seq<Deferred>)
    requires InFlight(n, ds)
    ensures History(n)
  {
    hide History, Adoptions, Waits, Queues, Runs, Handles;
  }

  // A registration that nobody will serve any more has released its promise.
  lemma DoneOwners(w: World, u: World, id: nat)
    requires Owners(w) && id in w.net.made && id in w.net.place && w.net.place[id] != Done
    requires u == w.(net := u.net) && u.net.cells == w.net.cells && u.net.made == w.net.made
    requires u.net.place == w.net.place[id := Done] || u.net.place == w.net.place[id := Running]
    ensures Owners(u) && (u.net.place[id] == Done ==> Released(u, w.net.made[id].promise))
  {
    assert Owned(w, w.net.made[id].promise, Registration(id));
    SameOwners(w, u);
  }

  lemma FinishedKeeps(w: World)
    requires Inv(w) && w.net.activity.Busy?
    ensures var u := w.(net := Finish(w.net, w.net.activity.d.id));
            Inv(u) && Released(u, w.net.activity.d.promise) && Open(u.net, w.net.activity.d.promise)
  {
    hide Owners, Adoptions, Waits, Queues, Runs, Handles, Released, Target;
    var u := w.(net := Finish(w.net, w.net.activity.d.id));
    RunnerOpens(w);
    FinishKeeps(w.net);
    DoneOwners(w, u, w.net.activity.d.id);
  }

  lemma PopOwners(w: World, p: Promise)
    requires Owners(w) && w.net.queue != []
    ensures Owners(w.(net := w.net.(queue := w.net.queue[1..])))
    ensures Owners(World(w.net.(queue := w.net.queue[1..]), w.done, w.owner, w.reported + [p]))
  {
    SameOwners(w, w.(net := w.net.(queue := w.net.queue[1..])));
    SameOwners(w, World(w.net.(queue := w.net.queue[1..]), w.done, w.owner, w.reported + [p]));
  }

  lemma ServedKeeps(w: World, p: Promise, d: Deferred, at: Place, a: Activity)
    requires Inv(w) && w.net.queue != [] && w.net.queue[0] == Serve(p, d) && w.net.activity.Idle?
    requires (at == Running && a == Busy(p, d)) || (at == Done && a.Idle?)
    ensures var u := w.(net := Take(w.net, d.id, at, a));
            Inv(u) && (at == Done ==> Released(u, d.promise) && Open(u.net, d.promise))
  {
    hide Owners, Adoptions, Waits, Queues, Runs, Handles, Released, Target;
    var u := w.(net := Take(w.net, d.id, at, a));
    HeadIsOpen(w);
    ServeKeeps(w.net, p, d, at, a);
    DoneOwners(w, u, d.id);
  }

  lemma StartKeeps(w: World)
    requires Inv(w) && w.net.activity.Idle? && w.net.queue != []
    ensures Inv(Start(w))
  {
    hide Owners, InFlight, Open, Released, Resolve, Settle, Take, History;
    HeadIsOpen(w);
    match w.net.queue[0]
    case Unhandled(p) =>
      PopKeeps(w.net);
      PopOwners(w, p);
    case Serve(p, d) =>
      ServedKeeps(w, p, d, Running, Busy(p, d));
      ServedKeeps(w, p, d, Done, Idle);
      var u := w.(net := Take(w.net, d.id, Done, Idle));
      var c := w.net.cells[p];
      if c.state == FULFILLED { ResolveKeeps(u, d.promise, c.value, null); }
      else { SettleKeeps(u, d.promise, REJECTED, c.value); }
  }

  lemma StepKeeps(w: World, ev: Event)
    requires Inv(w) && Enabled(w, ev)
    ensures Inv(Step(w, ev))
  {
    hide Inv, Open, Released, Resolve, Settle, Start;
    match ev
    case New(p, r) => NewKeeps(w, p, r);
    case CallResolve(r, v, k) =>
      if !w.done[r] {
        SpendKeeps(w, r);
        ResolveKeeps(w.(done := w.done[r := true]), r.promise, v, k);
      }
    case CallReject(r, x) =>
      if !w.done[r] {
        SpendKeeps(w, r);
        SettleKeeps(w.(done := w.done[r := true]), r.promise, REJECTED, x);
      }
    case Then(p, f, g, child) => ThenKeeps(w, p, f, g, child);
    case Begin => StartKeeps(w);
    case Return(v, k) =>
      FinishedKeeps(w);
      ResolveKeeps(w.(net := Finish(w.net, w.net.activity.d.id)), w.net.activity.d.promise, v, k);
    case Throw(x) =>
      FinishedKeeps(w);
      SettleKeeps(w.(net := Finish(w.net, w.net.activity.d.id)), w.net.activity.d.promise, REJECTED, x);
  }

  lemma EmptyIsValid()
    ensures Inv(EMPTY)
  {
    var none: map<nat, Deferred> := map[];
    assert EMPTY.net.made == none && |none| == 0;
    assert Adoptions(EMPTY.net);
    assert History(EMPTY.net);
    assert Waits(EMPTY.net, []);
    assert Queues(EMPTY.net);
    assert Runs(EMPTY.net);
    assert Handles(EMPTY.net, []);
    assert Owners(EMPTY);
  }
}
