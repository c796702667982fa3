// Which handler a registration calls, and what becomes of the promise that `then` has returned: told in
// terms of the calls of `then` themselves, over every run.
module PromiseHandlers {
  import opened Promises
  import opened PromiseInvariant
  import opened PromiseRuns

  // ----- The calls of then -----

  function Thens(evs: seq<Event>): seq<Event> {
    if evs == [] then [] else (if evs[0].Then? then [evs[0]] else []) + Thens(evs[1..])
  }

  // The registrations are those that the calls have asked for, in order.
  ghost predicate Asked(n: Net, ts: seq<Event>) {
    && |n.made| == |ts| && n.source.Keys == n.made.Keys
    && forall id: nat :: id < |ts| ==>
         && ts[id].Then? && id in n.made && n.source[id] == ts[id].p && n.made[id].promise == ts[id].child
         && n.made[id].onFulfilled == ts[id].onFulfilled && n.made[id].onRejected == ts[id].onRejected
  }

  // Settling moves registrations about, and makes none.
  lemma SettleRecords(n: Net, e: Promise, state: nat, v: Value)
    requires e in n.cells && e in n.root && n.root[e] in n.cells
    ensures SameRecords(n, Settle(n, e, state, v))
  {
    hide Holds;
  }

  lemma ResolveRecords(w: World, e: Promise, v: Value, k: Resolver?)
    requires Open(w.net, e) && Resolvable(w, e, v, k)
    ensures SameRecords(w.net, Resolve(w, e, v, k).net)
  {
    hide Settle;
    match v
    case Promised(q) =>
      if q == e { SettleRecords(w.net, e, REJECTED, SelfResolution); }
      else {
        assert Redirect(w.net, e, q).root[e] == w.net.root[q];
        SettleRecords(Redirect(w.net, e, q), e, ADOPTED, Promised(q));
      }
    case Poisoned(x) => SettleRecords(w.net, e, REJECTED, x);
    case Thenable(_) =>
    case Plain(_) => SettleRecords(w.net, e, FULFILLED, v);
    case SelfResolution => SettleRecords(w.net, e, FULFILLED, v);
  }

  // Only `then` makes registrations, and only the service of one changes what is running.
  lemma StepRecords(w: World, ev: Event)
    requires Inv(w) && Enabled(w, ev) && !ev.Then?
    ensures Step(w, ev).net.made == w.net.made && Step(w, ev).net.source == w.net.source
    ensures !ev.Begin? && !ev.Return? && !ev.Throw? ==> Step(w, ev).net.activity == w.net.activity
  {
    hide InFlight, Owners, Resolve, Settle, Deliver, Open;
    match ev
    case New(_, _) =>
    case CallResolve(r, v, k) =>
      if !w.done[r] { SpenderOpens(w, r); ResolveRecords(w.(done := w.done[r := true]), r.promise, v, k); }
    case CallReject(r, x) =>
      if !w.done[r] { SpenderOpens(w, r); OpenRecords(w.net, r.promise, x); }
    case Begin =>
      HeadIsOpen(w);
      if w.net.queue[0].Serve? {
        var d, c := w.net.queue[0].d, w.net.cells[w.net.queue[0].p];
        var n := Take(w.net, d.id, Done, Idle);
        OpenSame(w.net, n, d.promise);
        if c.state == FULFILLED { ResolveRecords(w.(net := n), d.promise, c.value, null); } else { OpenRecords(n, d.promise, c.value); }
      }
    case Return(v, k) =>
      RunnerOpens(w);
      var n := Finish(w.net, w.net.activity.d.id);
      OpenSame(w.net, n, w.net.activity.d.promise);
      ResolveRecords(w.(net := n), w.net.activity.d.promise, v, k);
    case Throw(x) =>
      RunnerOpens(w);
      var n := Finish(w.net, w.net.activity.d.id);
      OpenSame(w.net, n, w.net.activity.d.promise);
      OpenRecords(n, w.net.activity.d.promise, x);
  }

  lemma OpenRecords(n: Net, e: Promise, x: Value)
    requires Open(n, e)
    ensures SameRecords(n, Reject(n, e, x))
  {
    hide Settle;
    SettleRecords(n, e, REJECTED, x);
  }

  lemma ThenRecords(n: Net, p: Promise, d: Deferred, r: Promise)
    requires r in n.cells
    ensures r in Register(n, p, d).cells
    ensures var u := Deliver(Register(n, p, d), r, [d]);
            u.made == n.made[d.id := d] && u.source == n.source[d.id := p] && u.activity == n.activity
  {
    hide Holds;
  }

  lemma StepThen(w: World, p: Promise, f: bool, g: bool, child: Promise)
    requires Inv(w) && Enabled(w, Then(p, f, g, child))
    ensures var u := Step(w, Then(p, f, g, child)).net;
            var id := |w.net.made|;
            && id !in w.net.made && u.made == w.net.made[id := Deferred(id, f, g, child)] && u.source == w.net.source[id := p]
            && u.activity == w.net.activity
  {
    hide InFlight, Owners, Register, Deliver;
    FollowedOpens(w, p);
    FreshId(w.net);
    ThenRecords(w.net, p, Deferred(|w.net.made|, f, g, child), w.net.root[p]);
  }

  lemma OneMoreAsked(n: Net, u: Net, t: Event, ts: seq<Event>)
    requires t.Then? && Asked(n, ts) && |n.made| !in n.made && u.source == n.source[|n.made| := t.p]
    requires u.made == n.made[|n.made| := Deferred(|n.made|, t.onFulfilled, t.onRejected, t.child)]
    ensures Asked(u, ts + [t])
  {
  }

  lemma ThenAsks(w: World, p: Promise, f: bool, g: bool, child: Promise, ts: seq<Event>)
    requires Inv(w) && Enabled(w, Then(p, f, g, child)) && Asked(w.net, ts)
    ensures Asked(Step(w, Then(p, f, g, child)).net, ts + [Then(p, f, g, child)])
  {
    hide Inv, Asked, Step;
    StepThen(w, p, f, g, child);
    OneMoreAsked(w.net, Step(w, Then(p, f, g, child)).net, Then(p, f, g, child), ts);
  }

  lemma {:induction false} RunAsks(w: World, evs: seq<Event>, ts: seq<Event>)
    requires Inv(w) && Legal(w, evs) && Asked(w.net, ts)
    ensures Asked(Run(w, evs).net, ts + Thens(evs))
    decreases |evs|
  {
    hide Inv, Enabled, Step, Asked;
    if evs == [] {
      assert ts + [] == ts;
    } else {
      StepKeeps(w, evs[0]);
      var more := if evs[0].Then? then [evs[0]] else [];
      StepAsks(w, evs[0], ts);
      RunAsks(Step(w, evs[0]), evs[1..], ts + more);
      assert ts + Thens(evs) == ts + more + Thens(evs[1..]);
    }
  }

  lemma StepAsks(w: World, ev: Event, ts: seq<Event>)
    requires Inv(w) && Enabled(w, ev) && Asked(w.net, ts)
    ensures Asked(Step(w, ev).net, ts + if ev.Then? then [ev] else [])
  {
    hide Inv, Enabled, Step;
    if ev.Then? {
      ThenAsks(w, ev.p, ev.onFulfilled, ev.onRejected, ev.child, ts);
    } else {
      StepRecords(w, ev);
      assert ts + [] == ts;
    }
  }

  // The registration number id is the one that the call number id of `then` has made.
  lemma RunIsAsked(evs: seq<Event>)
    requires Possible(evs)
    ensures Asked(After(evs).net, Thens(evs))
  {
    EmptyIsValid();
    var none: map<nat, Deferred> := map[];
    assert |none| == 0 && EMPTY.net.made == none;
    RunAsks(EMPTY, evs, []);
    assert [] + Thens(evs) == Thens(evs);
  }

  // ----- What a promise is resolved with -----

  // A value is taken as it is; the promise itself is an error; another promise is followed, and what it
  // is settled with counts; an object with a `then` is asked, and its answer counts.
  ghost predicate ResolvedWith(u: World, e: Promise, v: Value, k: Resolver?) {
    && e in u.net.cells && e in u.net.root
    && var c := u.net.cells[e];
       match v
       case Promised(q) =>
         if q == e then c.state == REJECTED && c.value == SelfResolution
         else c.state == ADOPTED && c.value == v && q in u.net.root && u.net.root[e] == u.net.root[q]
       case Poisoned(x) => c.state == REJECTED && c.value == x
       case Thenable(_) => c.state == PENDING && k != null && k in u.done && !u.done[k] && k.promise == e
       case _ => c.state == FULFILLED && c.value == v
  }

  ghost predicate SettledAs(n: Net, e: Promise, state: nat, v: Value) {
    e in n.cells && n.cells[e].state == state && n.cells[e].value == v
  }

  lemma SettlesAs(n: Net, e: Promise, state: nat, v: Value)
    requires e in n.cells && e in n.root && n.root[e] in n.cells
    ensures SettledAs(Settle(n, e, state, v), e, state, v) && Settle(n, e, state, v).root == n.root
  {
    hide Holds;
  }

  lemma ResolvesWith(w: World, e: Promise, v: Value, k: Resolver?)
    requires Open(w.net, e) && Resolvable(w, e, v, k) && (v.Thenable? ==> w.net.cells[e].state == PENDING)
    ensures ResolvedWith(Resolve(w, e, v, k), e, v, k)
  {
    hide Settle;
    match v
    case Promised(q) =>
      if q == e { SettlesAs(w.net, e, REJECTED, SelfResolution); }
      else {
        var n := Redirect(w.net, e, q);
        assert n.root[e] == w.net.root[q] && n.root[q] == w.net.root[q];
        SettlesAs(n, e, ADOPTED, Promised(q));
      }
    case Poisoned(x) => SettlesAs(w.net, e, REJECTED, x);
    case Thenable(_) =>
    case Plain(_) => SettlesAs(w.net, e, FULFILLED, v);
    case SelfResolution => SettlesAs(w.net, e, FULFILLED, v);
  }

  // The first call of either function of a resolver decides, and the others do nothing.
  lemma ResolverDecides(w: World, r: Resolver, v: Value, k: Resolver?)
    requires Inv(w) && Enabled(w, CallResolve(r, v, k))
    ensures var u := Step(w, CallResolve(r, v, k));
            if w.done[r] then u == w else ResolvedWith(u, r.promise, v, k) && r in u.done && u.done[r]
  {
    hide InFlight, Owners;
    if !w.done[r] {
      SpenderOpens(w, r);
      ResolvesWith(w.(done := w.done[r := true]), r.promise, v, k);
    }
  }

  lemma RejecterDecides(w: World, r: Resolver, x: Value)
    requires Inv(w) && Enabled(w, CallReject(r, x))
    ensures var u := Step(w, CallReject(r, x));
            if w.done[r] then u == w else SettledAs(u.net, r.promise, REJECTED, x) && r in u.done && u.done[r]
  {
    hide InFlight, Owners, Settle;
    if !w.done[r] {
      SpenderOpens(w, r);
      SettlesAs(w.net, r.promise, REJECTED, x);
    }
  }

  // ----- What a registration does -----

  // A handler runs that decides about the promise.
  ghost predicate IsRunning(w: World, child: Promise) {
    w.net.activity.Busy? && w.net.activity.d.promise == child
  }

  // The handler that is asked for when the promise is settled like that.
  predicate Calls(t: Event, state: nat)
    requires t.Then?
  {
    if state == FULFILLED then t.onFulfilled else t.onRejected
  }

  // When the registration of a call of `then` is taken up, its promise has been settled.  The handler for
  // that outcome is called, with the value, if it was given; if not, the new promise is settled alike.
  ghost predicate TakenUp(w: World, t: Event, u: World)
    requires t.Then?
  {
    && t.p in w.net.root && Settled(w.net, w.net.root[t.p]) && IsPending(w, t.child)
    && var c := w.net.cells[w.net.root[t.p]];
       if Calls(t, c.state) then
         IsRunning(u, t.child) && u.net.activity.p == w.net.root[t.p] && u.net.cells == w.net.cells
       else
         u.net.activity.Idle? && SettledAs(u.net, t.child, c.state, c.value)
  }

  // The registration at the head of the queue is taken up.
  ghost predicate Took(n: Net, p: Promise, d: Deferred, u: Net) {
    && p in n.cells
    && var c := n.cells[p];
       if if c.state == FULFILLED then d.onFulfilled else d.onRejected then u.activity == Busy(p, d) && u.cells == n.cells
       else u.activity.Idle? && SettledAs(u, d.promise, c.state, c.value)
  }

  lemma HeadIsTaken(w: World, p: Promise, d: Deferred)
    requires Inv(w) && w.net.activity.Idle? && w.net.queue != [] && w.net.queue[0] == Serve(p, d)
    ensures Took(w.net, p, d, Start(w).net)
  {
    hide InFlight, Owners, Resolve, Settle, Open;
    HeadIsOpen(w);
    var c := w.net.cells[p];
    var n := Take(w.net, d.id, Done, Idle);
    OpenSame(w.net, n, d.promise);
    if c.state == FULFILLED {
      ResolvesWith(w.(net := n), d.promise, c.value, null);
      ResolveRecords(w.(net := n), d.promise, c.value, null);
    } else {
      OpenRecords(n, d.promise, c.value);
      OpenSettles(n, d.promise, c.value);
    }
  }

  lemma OpenSettles(n: Net, e: Promise, x: Value)
    requires Open(n, e)
    ensures SettledAs(Reject(n, e, x), e, REJECTED, x)
  {
    hide Settle;
    SettlesAs(n, e, REJECTED, x);
  }

  // The head of the queue as it is recorded.
  lemma HeadIsRecorded(w: World)
    requires Inv(w) && w.net.queue != [] && w.net.queue[0].Serve?
    ensures var j := w.net.queue[0];
            && j.d.id in w.net.made && w.net.made[j.d.id] == j.d && j.d.id in w.net.source
            && w.net.source[j.d.id] in w.net.root && w.net.root[w.net.source[j.d.id]] == j.p
            && Settled(w.net, j.p) && IsPending(w, j.d.promise)
  {
    HeadIsOpen(w);
    hide Adoptions, Waits, Runs, Handles, Owners, Open;
    assert Ready(w.net, w.net.queue[0], Queued);
  }

  lemma HandlerIsTaken(w: World, ts: seq<Event>, p: Promise, d: Deferred)
    requires Inv(w) && w.net.activity.Idle? && w.net.queue != [] && w.net.queue[0] == Serve(p, d) && Asked(w.net, ts)
    ensures d.id < |ts| && ts[d.id].Then? && TakenUp(w, ts[d.id], Start(w))
  {
    hide Inv, Start;
    HeadIsRecorded(w);
    HeadIsTaken(w, p, d);
    MadeIsAsked(w, d.id, ts);
  }

  lemma HandlerIsCalled(evs: seq<Event>, w: World, id: nat)
    requires Possible(evs) && w == After(evs) && w.net.activity.Idle? && w.net.queue != [] && IsFor(w.net.queue[0], id)
    ensures id < |Thens(evs)| && Thens(evs)[id].Then? && TakenUp(w, Thens(evs)[id], Start(w))
  {
    RunIsAsked(evs);
    hide Inv, After, Start, Asked, TakenUp;
    HandlerIsTaken(w, Thens(evs), w.net.queue[0].p, w.net.queue[0].d);
  }

  lemma MadeIsAsked(w: World, id: nat, ts: seq<Event>)
    requires Inv(w) && Asked(w.net, ts) && id in w.net.made
    ensures id < |ts|
  {
    hide Adoptions, Waits, Queues, Runs, Handles, Owners;
  }

  // ----- What a handler returns or throws -----

  predicate NobodyEnds(evs: seq<Event>) {
    forall i :: 0 <= i < |evs| ==> !evs[i].Return? && !evs[i].Throw?
  }

  // While a handler runs, nothing else is taken up.
  lemma {:induction false} StaysBusy(w: World, evs: seq<Event>, child: Promise)
    requires Inv(w) && Legal(w, evs) && IsRunning(w, child) && NobodyEnds(evs)
    ensures IsRunning(Run(w, evs), child)
    decreases |evs|
  {
    hide Inv, Step;
    if evs != [] {
      StepKeeps(w, evs[0]);
      if evs[0].Then? { StepThen(w, evs[0].p, evs[0].onFulfilled, evs[0].onRejected, evs[0].child); } else { StepRecords(w, evs[0]); }
      StaysBusy(Step(w, evs[0]), evs[1..], child);
    }
  }

  // The promise that `then` has returned is resolved with what its handler returns.
  lemma ReturnResolves(w: World, child: Promise, v: Value, k: Resolver?)
    requires Inv(w) && IsRunning(w, child) && Enabled(w, Return(v, k))
    ensures ResolvedWith(Step(w, Return(v, k)), child, v, k)
  {
    hide InFlight, Owners, Open, Resolve;
    RunnerOpens(w);
    var n := Finish(w.net, w.net.activity.d.id);
    OpenSame(w.net, n, child);
    ResolvesWith(w.(net := n), child, v, k);
  }

  // It is rejected with what its handler throws.
  lemma ThrowRejects(w: World, child: Promise, x: Value)
    requires Inv(w) && IsRunning(w, child) && Enabled(w, Throw(x))
    ensures SettledAs(Step(w, Throw(x)).net, child, REJECTED, x)
  {
    hide InFlight, Owners, Open, Settle;
    RunnerOpens(w);
    var n := Finish(w.net, w.net.activity.d.id);
    OpenSame(w.net, n, child);
    OpenSettles(n, child, x);
  }
}
