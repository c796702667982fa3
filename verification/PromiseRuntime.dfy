// The functions of the polyfill on the objects they update, each shown to make one step of the
// transition system.
module PromiseRuntime {
  import opened Promises
  import opened PromiseInvariant

  // The same registrations, handed over in two portions.
  lemma DeliverMore(n: Net, r: Promise, ds: seq<Deferred>, d: Deferred)
    requires r in n.cells
    ensures Deliver(n, r, ds).cells.Keys == n.cells.Keys && Deliver(n, r, ds).root == n.root
    ensures Deliver(Deliver(n, r, ds), r, [d]) == Deliver(n, r, ds + [d])
  {
    hide Holds;
    if n.cells[r].state == PENDING { DeliverMorePending(n, r, ds, d); } else { DeliverMoreSettled(n, r, ds, d); }
  }

  lemma DeliverMorePending(n: Net, r: Promise, ds: seq<Deferred>, d: Deferred)
    requires r in n.cells && n.cells[r].state == PENDING
    ensures Deliver(Deliver(n, r, ds), r, [d]) == Deliver(n, r, ds + [d])
  {
    hide Holds;
    assert n.cells[r].deferreds + ds + [d] == n.cells[r].deferreds + (ds + [d]);
  }

  lemma DeliverMoreSettled(n: Net, r: Promise, ds: seq<Deferred>, d: Deferred)
    requires r in n.cells && n.cells[r].state != PENDING
    ensures Deliver(Deliver(n, r, ds), r, [d]) == Deliver(n, r, ds + [d])
  {
    hide Holds;
    var u, v := Deliver(Deliver(n, r, ds), r, [d]), Deliver(n, r, ds + [d]);
    forall id ensures Holds(ds + [d], id) <==> Holds(ds, id) || Holds([d], id) { HoldsMore(ds, d, id); }
    assert n.queue + Jobs(r, ds) + Jobs(r, [d]) == n.queue + Jobs(r, ds + [d]);
    assert u.place == v.place;
  }

  lemma HoldsMore(ds: seq<Deferred>, d: Deferred, id: nat)
    ensures Holds(ds + [d], id) <==> Holds(ds, id) || Holds([d], id)
  {
    if Holds(ds, id) {
      var i :| 0 <= i < |ds| && ds[i].id == id;
      assert (ds + [d])[i].id == id;
    }
    if Holds([d], id) { assert (ds + [d])[|ds|].id == id; }
  }

  lemma DeliverNone(n: Net, r: Promise)
    requires r in n.cells
    ensures Deliver(n, r, []) == n
  {
    var u := Deliver(n, r, []);
    assert n.cells[r].deferreds + [] == n.cells[r].deferreds && n.queue + Jobs(r, []) == n.queue;
    assert forall id :: !Holds([], id);
    assert u.cells == n.cells && u.queue == n.queue && u.place == n.place;
  }

  // What the arrival of one registration changes.
  lemma DeliverOne(n: Net, r: Promise, d: Deferred)
    requires r in n.cells
    ensures var u := Deliver(n, r, [d]);
            var c := n.cells[r];
            && u.cells == n.cells[r := if c.state == PENDING then c.(deferreds := c.deferreds + [d]) else c.(handled := true)]
            && u.queue == (if c.state == PENDING then n.queue else n.queue + [Serve(r, d)])
            && u.root == n.root && u.depth == n.depth && u.activity == n.activity && u.made == n.made
  {
  }

  lemma OneAdoptions(n: Net, r: Promise, d: Deferred)
    requires Adoptions(n) && r in n.cells
    ensures Adoptions(Deliver(n, r, [d]))
  {
    hide Adoptions, Deliver;
    DeliverOne(n, r, d);
    AlikeAdoptions(n, Deliver(n, r, [d]));
  }

  lemma AdoptionLeads(n: Net, p: Promise)
    requires Adoptions(n) && p in n.cells
    ensures n.root.Keys == n.cells.Keys && n.depth.Keys == n.cells.Keys && Leads(n, p)
  {
  }

  // The promise has its new state; its registrations are taken out, and not yet anywhere else.
  ghost function Marked(n: Net, e: Promise, state: nat, v: Value): Net
    requires e in n.cells
  {
    n.(cells := n.cells[e := n.cells[e].(state := state, value := v, deferreds := [])])
  }

  // Settling is marking, then delivering what was in the list.
  lemma SettleIs(n: Net, e: Promise, state: nat, v: Value)
    requires e in n.cells && e in n.root && n.root[e] in n.cells
    ensures var u := Marked(n, e, state, v);
            && u.cells == n.cells[e := n.cells[e].(state := state, value := v, deferreds := [])]
            && u.queue == n.queue && u.activity == n.activity && u.made == n.made && u.root == n.root
            && Settle(n, e, state, v) == Deliver(Listening(u, e, n.cells[e].deferreds), u.root[e], n.cells[e].deferreds)
  {
    hide Deliver;
  }

  // The check for an unhandled rejection is scheduled if nobody listens.
  ghost function Listening(n: Net, e: Promise, ds: seq<Deferred>): Net
    requires e in n.cells
  {
    n.(queue := if n.cells[e].state == REJECTED && ds == [] then n.queue + [Unhandled(e)] else n.queue)
  }

  lemma RedirectIs(n: Net, e: Promise, q: Promise)
    requires Open(n, e) && q in n.root && n.root[q] in n.cells && n.root[q] != e
    ensures var u := Redirect(n, e, q);
            && u.cells == n.cells && u.queue == n.queue && u.activity == n.activity && u.made == n.made
            && e in u.root && u.root[e] == n.root[q] && Promises.Adopt(n, e, q) == Settle(u, e, ADOPTED, Promised(q))
  {
    hide Settle;
  }

  lemma MarkedAdoptions(n: Net, e: Promise, state: nat, v: Value)
    requires InFlight(n, []) && e in n.cells && n.cells[e].state == PENDING && state < ADOPTED
    ensures Adoptions(Marked(n, e, state, v))
  {
    hide Waits, Queues, Runs, Handles, Adoptions, History;
    LeaveAdoptions(n, e, state, v);
    AlikeAdoptions(Leave(n, e, state, v), Marked(n, e, state, v));
  }

  lemma AdoptedAdoptions(n: Net, e: Promise, q: Promise)
    requires InFlight(n, []) && Open(n, e) && n.cells[e].state == PENDING && q in n.root && n.root[q] != e
    ensures Adoptions(Marked(Redirect(n, e, q), e, ADOPTED, Promised(q)))
  {
    hide Waits, Queues, Runs, Handles, Adoptions, History;
    RootIsOpen(n, q);
    RedirectAdoptions(n, e, q);
    AlikeAdoptions(Leave(Redirect(n, e, q), e, ADOPTED, Promised(q)), Marked(Redirect(n, e, q), e, ADOPTED, Promised(q)));
  }

  lemma RegisterReady(n: Net, p: Promise, d: Deferred)
    requires InFlight(n, []) && d.promise !in n.cells && p in n.cells && d.id == |n.made|
    ensures var u := Register(n, p, d);
            && Adoptions(u) && |u.made| == |n.made| + 1 && u.queue == n.queue && u.activity == n.activity
            && p in n.root && p in u.root && u.root[p] == n.root[p] && u.root[p] in u.cells
            && u.cells == n.cells[d.promise := Cell(PENDING, false, Plain(0), [])]
  {
    hide Waits, Queues, Runs, Handles, Adoptions, History;
    RegisterKeeps(n, p, d);
    FreshId(n);
    RootIsOpen(n, p);
  }

  // The three ways an immediate goes.
  lemma StartCases(w: World)
    requires Inv(w) && w.net.activity.Idle? && w.net.queue != []
    ensures var j := w.net.queue[0];
            && Settled(w.net, j.p)
            && Inv(Start(w)) && Steps(w, Event.Begin, Start(w))
            && (j.Unhandled? ==> Start(w) == World(w.net.(queue := w.net.queue[1..]), w.done, w.owner,
                                                   if w.net.cells[j.p].handled then w.reported else w.reported + [j.p]))
            && (j.Serve? ==> StartServes(w, j.p, j.d, Start(w)))
  {
    hide InFlight, Owners, Promises.Resolve, Promises.Reject, Released, Open;
    StartKeeps(w);
    HeadIsOpen(w);
    match w.net.queue[0]
    case Unhandled(_) =>
    case Serve(p, d) =>
      ServedKeeps(w, p, d, Done, Idle);
  }

  ghost predicate HasHandler(w: World, p: Promise, d: Deferred) {
    p in w.net.cells && if w.net.cells[p].state == FULFILLED then d.onFulfilled else d.onRejected
  }

  ghost predicate StartServes(w: World, p: Promise, d: Deferred, u: World) {
    p in w.net.cells && w.net.queue != [] &&
    if HasHandler(w, p, d) then
      u == w.(net := Take(w.net, d.id, Running, Busy(p, d)))
    else
      var v := w.(net := Take(w.net, d.id, Done, Idle));
      Inv(v) && Released(v, d.promise) && Open(v.net, d.promise) && PassesOn(v, p, d, u)
  }

  // The promise of the registration is settled like `p`.
  ghost predicate PassesOn(w: World, p: Promise, d: Deferred, u: World) {
    Settled(w.net, p) && Open(w.net, d.promise) &&
    var c := w.net.cells[p];
    if c.state == FULFILLED then (c.value.Plain? || c.value.SelfResolution?) && Resolves(w, d.promise, c.value, null, u)
    else u == w.(net := Promises.Reject(w.net, d.promise, c.value))
  }

  lemma Plainly(w: World, p: Promise, d: Deferred)
    requires Inv(w) && w.net.activity.Idle? && w.net.queue != [] && StartServes(w, p, d, Start(w)) && !HasHandler(w, p, d)
    ensures Settled(w.net, p)
    ensures w.net.cells[p].state == FULFILLED ==> w.net.cells[p].value.Plain? || w.net.cells[p].value.SelfResolution?
  {
    hide Inv, Resolves, Released, Open, Start;
  }

  lemma PassesOnOneWay(w: World, p: Promise, d: Deferred, u: World, v: World)
    requires PassesOn(w, p, d, u) && PassesOn(w, p, d, v)
    ensures u == v
  {
    hide Promises.Resolve, Promises.Reject, Open;
  }

  // Only a foreign `then` needs a new resolver.
  lemma ResolveWithout(w: World, e: Promise, v: Value, k: Resolver?)
    requires Open(w.net, e) && Resolvable(w, e, v, k) && !v.Thenable?
    ensures Promises.Resolve(w, e, v, k) == Promises.Resolve(w, e, v, null)
  {
  }

  // The promise can be adopted, if it is one.
  ghost predicate Adoptable(w: World, e: Promise, v: Value) {
    v.Promised? ==> v.p in w.net.root && w.net.root[v.p] in w.net.cells && (v.p != e ==> w.net.root[v.p] != e)
  }

  ghost predicate Resolves(w: World, e: Promise, v: Value, k: Resolver?, u: World) {
    Open(w.net, e) && Resolvable(w, e, v, k) && u == Promises.Resolve(w, e, v, k)
  }

  ghost predicate Steps(w: World, ev: Event, u: World) {
    Inv(w) && Enabled(w, ev) && u == Step(w, ev)
  }

  class Runtime {
    var queue: seq<Job>
    var activity: Activity
    var reported: seq<Promise>
    var next: nat  // the identity of the next registration
    ghost var world: World

    // The objects are those of the world; the list of `but` may still hold what is on its way.
    ghost predicate Mirrors(but: Promise?)
      reads this, world.net.cells.Keys, world.done.Keys
    {
      && next == |world.net.made| && queue == world.net.queue && activity == world.net.activity && reported == world.reported
      && (forall p :: p in world.net.cells ==>
            if p == but then p.Contents().(deferreds := []) == world.net.cells[p].(deferreds := [])
            else p.Contents() == world.net.cells[p])
      && (forall r :: r in world.done ==> r.done == world.done[r])
    }

    ghost predicate Valid()
      reads this, world.net.cells.Keys, world.done.Keys
    {
      Mirrors(null) && Inv(world)
    }

    constructor ()
      ensures Valid() && world == EMPTY
    {
      queue, activity, reported, next, world := [], Idle, [], 0, EMPTY;
      new;
      EmptyIsValid();
    }

    // ----- o -----

    method RootOf(e: Promise, ghost but: Promise?) returns (r: Promise)
      requires Mirrors(but) && Adoptions(world.net) && e in world.net.root
      ensures r in world.net.cells && r == world.net.root[e] && world.net.root[r] == r
      ensures r.state == world.net.cells[r].state && r.state < ADOPTED
    {
      hide Adoptions;
      RootIsOpen(world.net, e);
      AdoptionLeads(world.net, e);
      r := e;
      while r.state == ADOPTED
        invariant r in world.net.cells && r in world.net.root && r in world.net.depth
        invariant world.net.root[r] == world.net.root[e]
        decreases world.net.depth[r]
      {
        AdoptionLeads(world.net, r);
        r := r.value.p;
      }
      AdoptionLeads(world.net, r);
    }

    // A registration is handed to the promise where the adoptions from `e` end.
    method Handle(e: Promise, d: Deferred, ghost but: Promise?)
      requires Mirrors(but) && Adoptions(world.net) && e in world.net.root && world.net.root[e] in world.net.cells
      requires but == null || but !in world.net.cells || world.net.cells[but].state != PENDING
      modifies this, world.net.cells.Keys
      ensures world == old(world.(net := Deliver(world.net, world.net.root[e], [d])))
      ensures Mirrors(but) && Adoptions(world.net)
      ensures world.net.cells.Keys == old(world.net.cells.Keys) && world.net.root == old(world.net.root)
      ensures but != null && but in old(world.net.cells) ==>
        && but.deferreds == old(but.deferreds) && but.state == old(but.state)
        && world.net.cells[but].deferreds == old(world.net.cells[but].deferreds)
        && world.net.cells[but].state == old(world.net.cells[but].state)
    {
      hide Adoptions, Deliver, Mirrors;
      var r := RootOf(e, but);
      OneAdoptions(world.net, r, d);
      DeliverOne(world.net, r, d);
      Put(r, d, but);
    }

    // A registration is put into the list of a pending promise, or into the queue.
    method Put(r: Promise, d: Deferred, ghost but: Promise?)
      requires Mirrors(but) && r in world.net.cells && r.state == world.net.cells[r].state
      requires r == but ==> r.state != PENDING
      modifies this, r
      ensures world == old(world.(net := Deliver(world.net, r, [d])))
      ensures Mirrors(but) && r.state == old(r.state) && (r == but ==> r.deferreds == old(r.deferreds))
    {
      hide Deliver;
      DeliverOne(world.net, r, d);
      world := world.(net := Deliver(world.net, r, [d]));
      if r.state != PENDING {
        r.handled := true;
        queue := queue + [Serve(r, d)];
      } else {
        r.deferreds := r.deferreds + [d];
      }
    }

    // ----- f -----

    // The registrations in the list of a promise that is no longer pending move on.
    method MoveAll(e: Promise)
      requires Mirrors(e) && Adoptions(world.net) && e in world.net.cells && e in world.net.root
      requires world.net.cells[e].state != PENDING && world.net.root[e] in world.net.cells
      modifies this, world.net.cells.Keys
      ensures Mirrors(e) && e.deferreds == old(e.deferreds) && e.state == old(e.state)
      ensures world == old(world.(net := Deliver(world.net, world.net.root[e], e.deferreds)))
      ensures e in world.net.cells && world.net.cells[e].deferreds == old(world.net.cells[e].deferreds)
    {
      hide Deliver, Adoptions, Mirrors;
      ghost var w := world;
      ghost var r := w.net.root[e];
      var ds := e.deferreds;
      var i := 0;
      DeliverNone(w.net, r);
      while i < |ds|
        invariant i <= |ds| && e.deferreds == ds && e.state == old(e.state)
        invariant world == w.(net := Deliver(w.net, r, ds[..i]))
        invariant Mirrors(e) && Adoptions(world.net) && world.net.cells.Keys == w.net.cells.Keys && world.net.root == w.net.root
        invariant world.net.cells[e].deferreds == w.net.cells[e].deferreds && world.net.cells[e].state != PENDING
      {
        Handle(e, ds[i], e);
        DeliverMore(w.net, r, ds[..i], ds[i]);
        assert ds[..i] + [ds[i]] == ds[..i + 1];
        i := i + 1;
      }
      assert ds[..i] == ds;
    }

    // The registrations of a promise that has just left the pending state move on.
    method Finale(e: Promise)
      requires Mirrors(e) && Adoptions(world.net) && e in world.net.cells && e in world.net.root && e.state == world.net.cells[e].state != PENDING
      requires world.net.cells[e].deferreds == [] && world.net.root[e] in world.net.cells
      modifies this, world.net.cells.Keys
      ensures Mirrors(null)
      ensures world == old(world.(net := Deliver(Listening(world.net, e, e.deferreds), world.net.root[e], e.deferreds)))
    {
      hide Deliver, Adoptions, Mirrors;
      ScheduleCheck(e);
      MoveAll(e);
      DropList(e);
    }

    method ScheduleCheck(e: Promise)
      requires Mirrors(e) && Adoptions(world.net) && e in world.net.cells && e.state == world.net.cells[e].state
      modifies this
      ensures Mirrors(e) && Adoptions(world.net) && world == old(world.(net := Listening(world.net, e, e.deferreds)))
    {
      hide Adoptions;
      if e.state == REJECTED && |e.deferreds| == 0 {
        queue := queue + [Unhandled(e)];
      }
      world := world.(net := Listening(world.net, e, e.deferreds));
      AlikeAdoptions(old(world.net), world.net);
    }

    method DropList(e: Promise)
      requires Mirrors(e) && e in world.net.cells && world.net.cells[e].deferreds == []
      modifies e`deferreds
      ensures Mirrors(null)
    {
      e.deferreds := [];
    }

    // ----- i and r -----

    // State and value are set; the list is still to be moved.
    method Mark(e: Promise, state: nat, v: Value)
      requires Mirrors(null) && e in world.net.cells && e in world.net.root && world.net.root[e] in world.net.cells
      modifies this`world, e
      ensures Mirrors(e) && world == old(world.(net := Marked(world.net, e, state, v)))
      ensures e.state == state && e.deferreds == old(world.net.cells[e].deferreds)
    {
      hide Marked;
      SettleIs(world.net, e, state, v);
      world := world.(net := Marked(world.net, e, state, v));
      e.state, e.value := state, v;
    }

    // The adoptions that end at `e` will end elsewhere.
    ghost method Redirected(e: Promise, q: Promise)
      requires Mirrors(null) && Open(world.net, e) && q in world.net.root && world.net.root[q] in world.net.cells && world.net.root[q] != e
      modifies this`world
      ensures Mirrors(null) && world == old(world.(net := Redirect(world.net, e, q)))
    {
      hide Redirect;
      RedirectIs(world.net, e, q);
      world := world.(net := Redirect(world.net, e, q));
    }

    method Reject(e: Promise, x: Value)
      requires Valid() && Released(world, e) && Open(world.net, e)
      modifies this, world.net.cells.Keys
      ensures Valid() && world == old(world.(net := Promises.Reject(world.net, e, x)))
    {
      hide InFlight, Owners, Deliver, Settle, Marked, Listening, Mirrors;
      SettleKeeps(world, e, REJECTED, x);
      MarkedAdoptions(world.net, e, REJECTED, x);
      SettleIs(world.net, e, REJECTED, x);
      Mark(e, REJECTED, x);
      Finale(e);
    }

    method Fulfil(e: Promise, v: Value)
      requires Valid() && Released(world, e) && Open(world.net, e) && (v.Plain? || v.SelfResolution?)
      modifies this, world.net.cells.Keys
      ensures Valid() && world == old(world.(net := Settle(world.net, e, FULFILLED, v)))
    {
      hide InFlight, Owners, Deliver, Settle, Marked, Listening, Mirrors;
      SettleKeeps(world, e, FULFILLED, v);
      MarkedAdoptions(world.net, e, FULFILLED, v);
      SettleIs(world.net, e, FULFILLED, v);
      Mark(e, FULFILLED, v);
      Finale(e);
    }

    method Adopt(e: Promise, q: Promise)
      requires Valid() && Released(world, e) && Open(world.net, e) && q != e && Adoptable(world, e, Promised(q))
      modifies this, world.net.cells.Keys
      ensures Valid() && world == old(world.(net := Promises.Adopt(world.net, e, q)))
    {
      hide InFlight, Owners, Deliver, Settle, Marked, Listening, Redirect, Promises.Adopt, Mirrors;
      AdoptKeeps(world, e, q);
      AdoptedAdoptions(world.net, e, q);
      RedirectIs(world.net, e, q);
      SettleIs(Redirect(world.net, e, q), e, ADOPTED, Promised(q));
      Redirected(e, q);
      Mark(e, ADOPTED, Promised(q));
      Finale(e);
    }

    // A foreign `then` gets the functions of a new resolver.
    method Resolve(e: Promise, v: Value) returns (k: Resolver?)
      requires Valid() && Released(world, e) && Open(world.net, e) && Adoptable(world, e, v)
      modifies this, world.net.cells.Keys
      ensures Valid() && Resolves(old(world), e, v, k, world)
    {
      hide InFlight, Owners, Settle, Promises.Adopt;
      k := null;
      if v == Promised(e) || v.Poisoned? {
        Reject(e, if v.Poisoned? then v.thrown else SelfResolution);
      } else if v.Promised? {
        Adopt(e, v.p);
      } else if v.Thenable? {
        k := new Resolver(e);
        ThenableKeeps(world, e, k);
        world := world.(done := world.done[k := false], owner := world.owner[e := Capability(k)]);
      } else {
        Fulfil(e, v);
      }
    }

    // ----- The calls of user code and the host -----

    // `new Promise`, with the functions its executor gets.
    method New() returns (p: Promise, r: Resolver)
      requires Valid()
      modifies this
      ensures fresh(p) && fresh(r) && r.promise == p
      ensures Valid() && Steps(old(world), Event.New(p, r), world)
    {
      hide InFlight, Owners;
      p := new Promise();
      r := new Resolver(p);
      StepKeeps(world, Event.New(p, r));
      world := Step(world, Event.New(p, r));
    }

    // The first function of a resolver.
    method CallResolve(r: Resolver, v: Value) returns (k: Resolver?)
      requires Valid() && r in world.done && (!r.done ==> Adoptable(world, r.promise, v))
      modifies this, world.net.cells.Keys, r
      ensures Valid() && Steps(old(world), Event.CallResolve(r, v, k), world)
    {
      hide InFlight, Owners, Promises.Resolve;
      k := null;
      if !r.done {
        SpendKeeps(world, r);
        world := world.(done := world.done[r := true]);
        r.done := true;
        k := Resolve(r.promise, v);
      }
    }

    // The second function of a resolver, also called when the executor throws.
    method CallReject(r: Resolver, x: Value)
      requires Valid() && r in world.done
      modifies this, world.net.cells.Keys, r
      ensures Valid() && Steps(old(world), Event.CallReject(r, x), world)
    {
      hide InFlight, Owners, Promises.Reject;
      if !r.done {
        SpendKeeps(world, r);
        world := world.(done := world.done[r := true]);
        r.done := true;
        Reject(r.promise, x);
      }
    }

    method Then(p: Promise, onFulfilled: bool, onRejected: bool) returns (child: Promise)
      requires Valid() && p in world.net.cells
      modifies this, world.net.cells.Keys
      ensures fresh(child)
      ensures Valid() && Steps(old(world), Event.Then(p, onFulfilled, onRejected, child), world)
    {
      hide InFlight, Owners, Deliver, Register, Mirrors;
      child := new Promise();
      ghost var w := world;
      NextId();
      var d := Deferred(next, onFulfilled, onRejected, child);
      ThenKeeps(w, p, onFulfilled, onRejected, child);
      RegisterReady(w.net, p, d);
      Record(p, d);
      Handle(p, d, null);
    }

    lemma NextId()
      requires Mirrors(null)
      ensures next == |world.net.made|
    {
    }

    // A new registration and its promise.
    method Record(p: Promise, d: Deferred)
      requires Mirrors(null) && d.id == next && d.promise.Contents() == Cell(PENDING, false, Plain(0), [])
      requires var u := Register(world.net, p, d);
               && |u.made| == |world.net.made| + 1 && u.queue == world.net.queue && u.activity == world.net.activity
               && u.cells == world.net.cells[d.promise := Cell(PENDING, false, Plain(0), [])]
      modifies this`world, this`next
      ensures Mirrors(null)
      ensures world == old(world.(net := Register(world.net, p, d), owner := world.owner[d.promise := Registration(d.id)]))
    {
      hide Register;
      next := next + 1;
      world := world.(net := Register(world.net, p, d), owner := world.owner[d.promise := Registration(d.id)]);
    }

    // A registration without a handler settles its promise like the one it was made on.
    method PassOn(e: Promise, d: Deferred)
      requires Valid() && Released(world, d.promise) && Open(world.net, d.promise) && Settled(world.net, e)
      requires e.state == FULFILLED ==> e.value.Plain? || e.value.SelfResolution?
      modifies this, world.net.cells.Keys
      ensures Valid() && PassesOn(old(world), e, d, world)
    {
      hide InFlight, Owners, Promises.Resolve, Promises.Reject;
      if e.state == FULFILLED {
        ghost var w, v := world, e.value;
        var k := Resolve(d.promise, e.value);
        ResolveWithout(w, d.promise, v, k);
      } else {
        Reject(d.promise, e.value);
      }
    }

    lemma AsInWorld(e: Promise)
      requires Mirrors(null) && e in world.net.cells
      ensures e.Contents() == world.net.cells[e] && queue == world.net.queue && activity == world.net.activity
    {
    }

    // The head of the queue is taken, and its callback is begun if there is one.
    method TakeHead(d: Deferred, ghost at: Place, a: Activity)
      requires Mirrors(null) && queue != [] && activity.Idle?
      modifies this`queue, this`activity, this`world
      ensures old(world.net.queue) != [] && Mirrors(null) && world == old(world.(net := Take(world.net, d.id, at, a)))
    {
      queue := queue[1..];
      activity := a;
      world := world.(net := Take(world.net, d.id, at, a));
    }

    // The registration at the head of the queue is served.
    method ServeHead(e: Promise, d: Deferred)
      requires Valid() && activity.Idle? && queue != [] && queue[0] == Serve(e, d)
      requires e in world.net.cells && StartServes(world, e, d, Start(world))
      requires Inv(Start(world))
      modifies this, world.net.cells.Keys
      ensures Valid() && world == old(Start(world))
    {
      hide InFlight, Owners, PassesOn, Resolves, Released, Open, Start, Mirrors;
      ghost var w := world;
      AsInWorld(e);
      if if e.state == FULFILLED then d.onFulfilled else d.onRejected {
        TakeHead(d, Running, Busy(e, d));
      } else {
        Plainly(w, e, d);
        TakeHead(d, Done, Idle);
        PassOn(e, d);
        PassesOnOneWay(w.(net := Take(w.net, d.id, Done, Idle)), e, d, Start(w), world);
      }
    }

    // The host runs the oldest immediate, up to the callback if there is one.
    method Begin()
      requires Valid() && activity.Idle? && queue != []
      modifies this, world.net.cells.Keys
      ensures Valid() && Steps(old(world), Event.Begin, world)
    {
      hide InFlight, Owners, StartServes, Steps, Start;
      StartCases(world);
      var j := queue[0];
      if j.Serve? {
        ServeHead(j.p, j.d);
      } else {
        queue := queue[1..];
        if !j.p.handled { reported := reported + [j.p]; }
        world := Start(world);
      }
    }

    // The callback is over; its promise is to be settled.
    method Finished() returns (child: Promise)
      requires Valid() && activity.Busy?
      modifies this`world, this`activity
      ensures old(world.net.activity.Busy?) && child == old(world.net.activity.d.promise) == old(activity.d.promise)
      ensures Valid() && world == old(world.(net := Finish(world.net, world.net.activity.d.id)))
      ensures Released(world, child) && Open(world.net, child)
    {
      hide InFlight, Owners, Released, Open;
      FinishedKeeps(world);
      child := activity.d.promise;
      world := world.(net := Finish(world.net, activity.d.id));
      activity := Idle;
    }

    // The callback returns.
    method Return(v: Value) returns (k: Resolver?)
      requires Valid() && activity.Busy? && Adoptable(world, activity.d.promise, v)
      modifies this, world.net.cells.Keys
      ensures Valid() && Steps(old(world), Event.Return(v, k), world)
    {
      hide InFlight, Owners, Promises.Resolve, Mirrors, Released, Open;
      var child := Finished();
      k := Resolve(child, v);
    }

    // The callback throws.
    method Throw(x: Value)
      requires Valid() && activity.Busy?
      modifies this, world.net.cells.Keys
      ensures Valid() && Steps(old(world), Event.Throw(x), world)
    {
      hide InFlight, Owners, Promises.Reject, Mirrors, Released, Open;
      var child := Finished();
      Reject(child, x);
    }
  }
}
