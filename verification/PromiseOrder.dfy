// The registrations on one promise are taken up in the order in which `then` was called, and immediates in
// the order in which they were scheduled.
module PromiseOrder {
  import opened Promises
  import opened PromiseInvariant
  import opened PromiseRuns
  import opened PromiseHandlers

  // A registration has been taken up.
  ghost predicate Gone(n: Net, id: nat) {
    id in n.place && (n.place[id] == Running || n.place[id] == Done)
  }

  // In the queue and in every list, the first comes before the second; and it is taken up before.
  ghost predicate InOrder(n: Net, a: nat, b: nat) {
    && (Gone(n, b) ==> Gone(n, a))
    && (forall i, j :: 0 <= i < |n.queue| && 0 <= j < |n.queue| && IsFor(n.queue[i], a) && IsFor(n.queue[j], b) ==> i < j)
    && forall p :: p in n.cells ==> ListInOrder(n.cells[p].deferreds, a, b)
  }

  ghost predicate ListInOrder(ds: seq<Deferred>, a: nat, b: nat) {
    forall i, j :: 0 <= i < |ds| && 0 <= j < |ds| && ds[i].id == a && ds[j].id == b ==> i < j
  }

  ghost predicate Siblings(n: Net, a: nat, b: nat) {
    a < b && a in n.made && b in n.made && a in n.source && b in n.source && n.source[a] == n.source[b]
  }

  ghost predicate Orders(n: Net) {
    forall a, b :: Siblings(n, a, b) ==> InOrder(n, a, b)
  }

  // Registrations on one promise follow the same one, and wait together.
  lemma WaitTogether(n: Net, a: nat, b: nat)
    requires InFlight(n, []) && Siblings(n, a, b)
    ensures a in n.place && b in n.place && Target(n, a) == Target(n, b) && (n.place[a] == Waiting <==> n.place[b] == Waiting)
  {
    hide Adoptions, Queues, Handles, At, Distinct;
    assert !Holds([], a) && !Holds([], b);
  }

  lemma ListPlace(n: Net, p: Promise, i: nat)
    requires InFlight(n, []) && p in n.cells && i < |n.cells[p].deferreds|
    ensures var id := n.cells[p].deferreds[i].id;
            id in n.made && id in n.place && n.place[id] == Waiting && Target(n, id) == p
  {
    hide Adoptions, Queues, Runs, Handles, Target;
    assert At(n, n.cells[p].deferreds[i], p, Waiting);
  }

  lemma QueuePlace(n: Net, i: nat, id: nat)
    requires InFlight(n, []) && i < |n.queue| && IsFor(n.queue[i], id)
    ensures id in n.place && n.place[id] == Queued
  {
    hide Adoptions, Waits, Runs, Handles, Target;
    assert Ready(n, n.queue[i], Queued);
  }

  // ----- Settling -----

  // What settling a promise adds to the queue: its registrations, in their order, or the check for an
  // unhandled rejection.
  ghost predicate Appended(q: seq<Job>, u: seq<Job>, ds: seq<Deferred>) {
    && q <= u
    && (forall i, id :: |q| <= i < |u| && IsFor(u[i], id) ==> |u| == |q| + |ds| && ds[i - |q|].id == id)
  }

  // Its list goes behind that of another promise, or away.
  ghost predicate Handed(n: Net, u: Net, e: Promise, r: Promise) {
    && e in n.cells && u.cells.Keys == n.cells.Keys
    && forall p :: p in n.cells ==>
         || u.cells[p].deferreds == n.cells[p].deferreds || u.cells[p].deferreds == []
         || (p == r && r != e && u.cells[p].deferreds == n.cells[p].deferreds + n.cells[e].deferreds)
  }

  lemma DeliverShape(n: Net, r: Promise, ds: seq<Deferred>)
    requires r in n.cells
    ensures var u := Deliver(n, r, ds);
            && (u.queue == n.queue || u.queue == n.queue + Jobs(r, ds)) && u.cells.Keys == n.cells.Keys
            && u.made == n.made && u.source == n.source
            && forall p :: p in n.cells ==>
                 || u.cells[p].deferreds == n.cells[p].deferreds
                 || (p == r && n.cells[r].state == PENDING && u.cells[p].deferreds == n.cells[p].deferreds + ds)
  {
    hide Holds;
  }

  lemma DeliverPlace(n: Net, r: Promise, ds: seq<Deferred>)
    requires r in n.cells
    ensures forall id :: Gone(Deliver(n, r, ds), id) ==> Gone(n, id)
  {
    hide Holds;
    var u := Deliver(n, r, ds);
    forall id | Gone(u, id) ensures Gone(n, id) {
      assert id in n.place;
    }
  }

  lemma SettleShape(n: Net, e: Promise, state: nat, v: Value)
    requires e in n.cells && e in n.root && n.root[e] in n.cells && state != PENDING
    requires n.cells[e].deferreds == [] || state != REJECTED || n.root[e] == e
    ensures var u := Settle(n, e, state, v);
            && Appended(n.queue, u.queue, n.cells[e].deferreds) && Handed(n, u, e, n.root[e])
            && u.made == n.made && u.source == n.source && forall id :: Gone(u, id) ==> Gone(n, id)
  {
    hide Deliver, Gone;
    var l, ds := Leave(n, e, state, v), n.cells[e].deferreds;
    assert forall id :: Gone(l, id) <==> Gone(n, id) by { SamePlaces(n, l); }
    DeliverShape(l, n.root[e], ds);
    DeliverPlace(l, n.root[e], ds);
  }

  lemma SamePlaces(n: Net, u: Net)
    requires u.place == n.place
    ensures forall id :: Gone(u, id) <==> Gone(n, id)
  {
  }

  lemma SettleGone(n: Net, e: Promise, state: nat, v: Value, id: nat)
    requires e in n.cells && e in n.root && n.root[e] in n.cells && AllWaiting(n, n.cells[e].deferreds) && Gone(n, id)
    ensures Gone(Settle(n, e, state, v), id)
  {
    SettleFollows(n, e, state, v, id);
  }

  // The queue of siblings stays in order.
  lemma QueueStays(n: Net, u: Net, ds: seq<Deferred>, a: nat, b: nat)
    requires InFlight(n, []) && Siblings(n, a, b) && InOrder(n, a, b) && Appended(n.queue, u.queue, ds) && ListInOrder(ds, a, b)
    requires forall i :: 0 <= i < |ds| ==> ds[i].id in n.place && n.place[ds[i].id] == Waiting
    ensures forall i, j :: 0 <= i < |u.queue| && 0 <= j < |u.queue| && IsFor(u.queue[i], a) && IsFor(u.queue[j], b) ==> i < j
  {
    hide InFlight;
    WaitTogether(n, a, b);
    forall i, j | 0 <= i < |u.queue| && 0 <= j < |u.queue| && IsFor(u.queue[i], a) && IsFor(u.queue[j], b) ensures i < j {
      var k := |n.queue|;
      if j < k {
        assert u.queue[j] == n.queue[j];
        QueuePlace(n, j, b);
        if i < k { assert u.queue[i] == n.queue[i]; }
      } else if i >= k {
        assert ds[i - k].id == a && ds[j - k].id == b;
      }
    }
  }

  lemma ListsStay(n: Net, u: Net, e: Promise, r: Promise, a: nat, b: nat)
    requires InFlight(n, []) && Siblings(n, a, b) && InOrder(n, a, b) && Handed(n, u, e, r)
    ensures forall p :: p in u.cells ==> ListInOrder(u.cells[p].deferreds, a, b)
  {
    hide InFlight;
    WaitTogether(n, a, b);
    forall p | p in u.cells ensures ListInOrder(u.cells[p].deferreds, a, b) {
      var was, ds, now := n.cells[p].deferreds, n.cells[e].deferreds, u.cells[p].deferreds;
      if now != was && now != [] {
        forall i, j | 0 <= i < |now| && 0 <= j < |now| && now[i].id == a && now[j].id == b ensures i < j {
          if i >= |was| && j < |was| {
            ListPlace(n, e, i - |was|);
            ListPlace(n, p, j);
          }
        }
      }
    }
  }

  // A promise that nothing has settled is settled: `n` is like `w` but for where adoptions end.
  lemma SettleOrders(w: Net, n: Net, e: Promise, state: nat, v: Value)
    requires InFlight(w, []) && Orders(w) && n == w.(root := n.root, depth := n.depth)
    requires e in n.cells && e in n.root && n.root[e] in n.cells && state != PENDING
    requires n.cells[e].deferreds == [] || state != REJECTED || n.root[e] == e
    ensures Orders(Settle(n, e, state, v))
  {
    hide InFlight, Settle, InOrder, Handed, Appended;
    var u := Settle(n, e, state, v);
    SettleShape(n, e, state, v);
    ListsWait(w, e);
    forall a, b | Siblings(u, a, b) ensures InOrder(u, a, b) {
      assert Siblings(w, a, b);
      PairStays(w, n, e, state, v, a, b);
    }
  }

  lemma PairStays(w: Net, n: Net, e: Promise, state: nat, v: Value, a: nat, b: nat)
    requires InFlight(w, []) && Siblings(w, a, b) && InOrder(w, a, b) && n == w.(root := n.root, depth := n.depth)
    requires e in n.cells && e in n.root && n.root[e] in n.cells && state != PENDING && AllWaiting(w, w.cells[e].deferreds)
    requires n.cells[e].deferreds == [] || state != REJECTED || n.root[e] == e
    ensures InOrder(Settle(n, e, state, v), a, b)
  {
    hide InFlight, Settle;
    var u := Settle(n, e, state, v);
    SettleShape(n, e, state, v);
    QueueStays(w, u, w.cells[e].deferreds, a, b);
    ListsStay(w, u, e, n.root[e], a, b);
    if Gone(u, b) { SettleGone(n, e, state, v, a); }
  }

  lemma ResolveOrders(w: World, e: Promise, v: Value, k: Resolver?)
    requires Inv(w) && Orders(w.net) && Open(w.net, e) && Resolvable(w, e, v, k)
    ensures Orders(Resolve(w, e, v, k).net)
  {
    hide InFlight, Settle, Orders;
    match v
    case Promised(q) =>
      if q == e { SettleOrders(w.net, w.net, e, REJECTED, SelfResolution); }
      else {
        var n := Redirect(w.net, e, q);
        assert n.root[e] == w.net.root[q];
        SettleOrders(w.net, n, e, ADOPTED, Promised(q));
      }
    case Poisoned(x) => SettleOrders(w.net, w.net, e, REJECTED, x);
    case Thenable(_) =>
    case Plain(_) => SettleOrders(w.net, w.net, e, FULFILLED, v);
    case SelfResolution => SettleOrders(w.net, w.net, e, FULFILLED, v);
  }

  // ----- The other steps -----

  // The head of the queue is taken.  Nothing before it on the same promise is left.
  lemma TakeOrders(n: Net, p: Promise, d: Deferred, at: Place, x: Activity)
    requires InFlight(n, []) && Orders(n) && n.queue != [] && n.queue[0] == Serve(p, d) && (at == Running || at == Done)
    ensures Orders(Take(n, d.id, at, x))
  {
    hide InFlight, ListInOrder;
    var u := Take(n, d.id, at, x);
    forall a, b | Siblings(u, a, b) ensures InOrder(u, a, b) {
      assert Siblings(n, a, b);
      if b == d.id { FirstIsGone(n, a, b); }
      forall i, j | 0 <= i < |u.queue| && 0 <= j < |u.queue| && IsFor(u.queue[i], a) && IsFor(u.queue[j], b) ensures i < j {
        assert u.queue[i] == n.queue[i + 1] && u.queue[j] == n.queue[j + 1];
      }
    }
  }

  lemma FirstIsGone(n: Net, a: nat, b: nat)
    requires InFlight(n, []) && Siblings(n, a, b) && InOrder(n, a, b) && n.queue != [] && IsFor(n.queue[0], b)
    ensures Gone(n, a)
  {
    WaitTogether(n, a, b);
    QueuePlace(n, 0, b);
    assert forall i :: 0 <= i < |n.queue| ==> !IsFor(n.queue[i], a);
    hide Adoptions, Waits, Runs, Handles, Ready, Once;
    assert !InQueue(n.queue, a);
  }

  lemma PopOrders(n: Net)
    requires Orders(n) && n.queue != []
    ensures Orders(n.(queue := n.queue[1..]))
  {
    hide ListInOrder;
    var u := n.(queue := n.queue[1..]);
    forall a, b | Siblings(u, a, b) ensures InOrder(u, a, b) {
      assert Siblings(n, a, b) && InOrder(n, a, b);
      forall i, j | 0 <= i < |u.queue| && 0 <= j < |u.queue| && IsFor(u.queue[i], a) && IsFor(u.queue[j], b) ensures i < j {
        assert u.queue[i] == n.queue[i + 1] && u.queue[j] == n.queue[j + 1];
      }
    }
  }

  lemma FinishOrders(n: Net, id: nat)
    requires Orders(n) && id in n.place && n.place[id] == Running
    ensures Orders(Finish(n, id))
  {
    hide ListInOrder;
    var u := Finish(n, id);
    forall a, b | Siblings(u, a, b) ensures InOrder(u, a, b) {
      assert Siblings(n, a, b) && InOrder(n, a, b);
    }
  }

  lemma NewOrders(n: Net, p: Promise)
    requires Orders(n) && p !in n.cells
    ensures Orders(Create(n, p))
  {
    var u := Create(n, p);
    forall a, b | Siblings(u, a, b) ensures InOrder(u, a, b) {
      assert Siblings(n, a, b) && InOrder(n, a, b);
    }
  }

  // A new registration is the last one wherever it comes.
  lemma RegisterOrders(n: Net, p: Promise, d: Deferred, r: Promise)
    requires InFlight(n, []) && Orders(n) && r in n.cells && d.promise !in n.cells && d.id == |n.made| && p in n.cells
    ensures r in Register(n, p, d).cells && Orders(Deliver(Register(n, p, d), r, [d]))
  {
    hide InFlight;
    FreshId(n);
    var u := Deliver(Register(n, p, d), r, [d]);
    forall a, b | Siblings(u, a, b) ensures InOrder(u, a, b) {
      NewPair(n, p, d, r, a, b);
    }
  }

  // Nothing is known yet of a new registration.
  lemma NowhereYet(n: Net, id: nat)
    requires InFlight(n, []) && id !in n.made && id !in n.place
    ensures forall i :: 0 <= i < |n.queue| ==> !IsFor(n.queue[i], id)
    ensures forall p, i :: p in n.cells && 0 <= i < |n.cells[p].deferreds| ==> n.cells[p].deferreds[i].id != id
  {
    hide InFlight;
    forall i | 0 <= i < |n.queue| ensures !IsFor(n.queue[i], id) {
      if IsFor(n.queue[i], id) { QueuePlace(n, i, id); }
    }
    forall p, i | p in n.cells && 0 <= i < |n.cells[p].deferreds| ensures n.cells[p].deferreds[i].id != id {
      ListPlace(n, p, i);
    }
  }

  lemma RegisterShape(n: Net, p: Promise, d: Deferred, r: Promise)
    requires r in n.cells && d.promise !in n.cells && d.id !in n.place
    ensures r in Register(n, p, d).cells
    ensures var u := Deliver(Register(n, p, d), r, [d]);
            && u.made == n.made[d.id := d] && u.source == n.source[d.id := p]
            && (u.queue == n.queue || u.queue == n.queue + [Serve(r, d)])
            && (forall q :: q in u.cells ==>
                  || (q in n.cells && u.cells[q].deferreds == n.cells[q].deferreds) || u.cells[q].deferreds == []
                  || (q in n.cells && u.cells[q].deferreds == n.cells[q].deferreds + [d]))
            && (forall id :: id != d.id ==> (Gone(u, id) <==> Gone(n, id))) && !Gone(u, d.id)
  {
    hide Holds;
    HoldsOne(d);
  }

  lemma NewPair(n: Net, p: Promise, d: Deferred, r: Promise, a: nat, b: nat)
    requires InFlight(n, []) && Orders(n) && r in n.cells && d.promise !in n.cells && d.id == |n.made| && d.id !in n.made && d.id !in n.place
    requires r in Register(n, p, d).cells && Siblings(Deliver(Register(n, p, d), r, [d]), a, b)
    ensures InOrder(Deliver(Register(n, p, d), r, [d]), a, b)
  {
    hide InFlight, Deliver, Register;
    NowhereYet(n, d.id);
    RegisterShape(n, p, d, r);
    Below(n, b);
    var u := Deliver(Register(n, p, d), r, [d]);
    assert a != d.id;
    if b != d.id { assert Siblings(n, a, b) && InOrder(n, a, b); }
    forall q | q in u.cells ensures ListInOrder(u.cells[q].deferreds, a, b) {
      if q in n.cells && b != d.id { assert ListInOrder(n.cells[q].deferreds, a, b); }
    }
  }

  lemma Below(n: Net, id: nat)
    requires InFlight(n, [])
    ensures id in n.made ==> id < |n.made|
  {
    hide Adoptions, Waits, Queues, Runs, Handles;
  }

  lemma BeginOrders(w: World)
    requires Inv(w) && Enabled(w, Begin) && Orders(w.net)
    ensures Orders(Start(w).net)
  {
    hide InFlight, Owners, Open, Resolve, Settle, Orders, Take;
    HeadIsOpen(w);
    match w.net.queue[0]
    case Unhandled(_) => PopOrders(w.net);
    case Serve(p, d) =>
      TakeOrders(w.net, p, d, Running, Busy(p, d));
      TakeOrders(w.net, p, d, Done, Idle);
      ServedKeeps(w, p, d, Done, Idle);
      var u := w.(net := Take(w.net, d.id, Done, Idle));
      if w.net.cells[p].state == FULFILLED { ResolveOrders(u, d.promise, w.net.cells[p].value, null); }
      else { RejectOrders(u, d.promise, w.net.cells[p].value); }
  }

  lemma RejectOrders(w: World, e: Promise, x: Value)
    requires Inv(w) && Orders(w.net) && Open(w.net, e)
    ensures Orders(Reject(w.net, e, x))
  {
    hide InFlight, Owners, Settle, Orders;
    SettleOrders(w.net, w.net, e, REJECTED, x);
  }

  lemma StepOrders(w: World, ev: Event)
    requires Inv(w) && Enabled(w, ev) && Orders(w.net)
    ensures Orders(Step(w, ev).net)
  {
    hide InFlight, Owners, Open, Resolve, Settle, Orders, Start, Register, Deliver, Create, Finish;
    match ev
    case New(p, _) => NewOrders(w.net, p);
    case CallResolve(r, v, k) =>
      if !w.done[r] {
        SpendKeeps(w, r);
        SpenderOpens(w, r);
        ResolveOrders(w.(done := w.done[r := true]), r.promise, v, k);
      }
    case CallReject(r, x) =>
      if !w.done[r] {
        SpenderOpens(w, r);
        RejectOrders(w, r.promise, x);
      }
    case Then(p, f, g, child) =>
      FollowedOpens(w, p);
      RegisterOrders(w.net, p, Deferred(|w.net.made|, f, g, child), w.net.root[p]);
    case Begin => BeginOrders(w);
    case Return(v, k) =>
      FinishedOrders(w);
      FinishFrames(w.net, w.net.activity.d.id);
      ResolveOrders(w.(net := Finish(w.net, w.net.activity.d.id)), w.net.activity.d.promise, v, k);
    case Throw(x) =>
      FinishedOrders(w);
      RejectOrders(w.(net := Finish(w.net, w.net.activity.d.id)), w.net.activity.d.promise, x);
  }

  lemma FinishFrames(n: Net, id: nat)
    ensures Finish(n, id).cells == n.cells && Finish(n, id).root == n.root && Finish(n, id).queue == n.queue
  {
  }

  lemma FinishedOrders(w: World)
    requires Inv(w) && w.net.activity.Busy? && Orders(w.net)
    ensures var u := w.(net := Finish(w.net, w.net.activity.d.id));
            Inv(u) && Open(u.net, w.net.activity.d.promise) && Orders(u.net)
  {
    hide InFlight, Owners, Open, Orders, Finish;
    FinishedKeeps(w);
    RunnerRuns(w);
    FinishOrders(w.net, w.net.activity.d.id);
  }

  // ----- Immediates -----

  lemma SettleQueue(n: Net, e: Promise, state: nat, v: Value)
    requires e in n.cells && e in n.root && n.root[e] in n.cells
    ensures n.queue <= Settle(n, e, state, v).queue
  {
    hide Holds;
  }

  lemma ResolveQueue(w: World, e: Promise, v: Value, k: Resolver?)
    requires Open(w.net, e) && Resolvable(w, e, v, k)
    ensures w.net.queue <= Resolve(w, e, v, k).net.queue
  {
    hide Settle;
    match v
    case Promised(q) =>
      if q == e { SettleQueue(w.net, e, REJECTED, SelfResolution); }
      else {
        var n := Redirect(w.net, e, q);
        assert n.root[e] == w.net.root[q];
        SettleQueue(n, e, ADOPTED, Promised(q));
      }
    case Poisoned(x) => SettleQueue(w.net, e, REJECTED, x);
    case Thenable(_) =>
    case Plain(_) => SettleQueue(w.net, e, FULFILLED, v);
    case SelfResolution => SettleQueue(w.net, e, FULFILLED, v);
  }

  lemma RejectQueue(n: Net, e: Promise, x: Value)
    requires Open(n, e)
    ensures n.queue <= Reject(n, e, x).queue
  {
    hide Settle;
    SettleQueue(n, e, REJECTED, x);
  }

  // Immediates are added at the end of the queue, and the host takes the first.
  lemma QueueIsFifo(w: World, ev: Event)
    requires Inv(w) && Enabled(w, ev)
    ensures (if ev.Begin? && w.net.queue != [] then w.net.queue[1..] else w.net.queue) <= Step(w, ev).net.queue
  {
    hide InFlight, Owners, Open, Resolve, Settle, Register, Create, Finish;
    match ev
    case New(p, _) => CreateQueue(w.net, p);
    case CallResolve(r, v, k) =>
      if !w.done[r] {
        SpenderOpens(w, r);
        ResolveQueue(w.(done := w.done[r := true]), r.promise, v, k);
      }
    case CallReject(r, x) =>
      if !w.done[r] {
        SpenderOpens(w, r);
        RejectQueue(w.net, r.promise, x);
      }
    case Then(p, f, g, child) =>
      FollowedOpens(w, p);
      RegisterQueue(w.net, p, Deferred(|w.net.made|, f, g, child), w.net.root[p]);
    case Begin => BeginQueue(w);
    case Return(v, k) =>
      FinishedKeeps(w);
      FinishFrames(w.net, w.net.activity.d.id);
      ResolveQueue(w.(net := Finish(w.net, w.net.activity.d.id)), w.net.activity.d.promise, v, k);
    case Throw(x) =>
      FinishedKeeps(w);
      FinishFrames(w.net, w.net.activity.d.id);
      RejectQueue(Finish(w.net, w.net.activity.d.id), w.net.activity.d.promise, x);
  }

  lemma CreateQueue(n: Net, p: Promise)
    ensures Create(n, p).queue == n.queue
  {
  }

  lemma RegisterQueue(n: Net, p: Promise, d: Deferred, r: Promise)
    requires r in n.cells
    ensures r in Register(n, p, d).cells && n.queue <= Deliver(Register(n, p, d), r, [d]).queue
  {
    hide Holds;
  }

  lemma BeginQueue(w: World)
    requires Inv(w) && w.net.activity.Idle? && w.net.queue != []
    ensures w.net.queue[1..] <= Start(w).net.queue
  {
    hide InFlight, Owners, Open, Resolve, Settle;
    HeadIsOpen(w);
    match w.net.queue[0]
    case Unhandled(_) =>
    case Serve(p, d) =>
      var n := Take(w.net, d.id, Done, Idle);
      OpenSame(w.net, n, d.promise);
      if w.net.cells[p].state == FULFILLED { ResolveQueue(w.(net := n), d.promise, w.net.cells[p].value, null); }
      else { RejectQueue(n, d.promise, w.net.cells[p].value); }
  }

  // ----- Runs -----

  lemma {:induction false} RunOrders(w: World, evs: seq<Event>)
    requires Inv(w) && Legal(w, evs) && Orders(w.net)
    ensures Orders(Run(w, evs).net)
    decreases |evs|
  {
    hide Inv, Enabled, Step, Orders;
    if evs != [] {
      StepKeeps(w, evs[0]);
      StepOrders(w, evs[0]);
      RunOrders(Step(w, evs[0]), evs[1..]);
    }
  }

  // In every run, of two calls of `then` on one promise the first is answered first.
  lemma ServedInOrder(evs: seq<Event>, a: nat, b: nat)
    requires Possible(evs) && a < b < |Thens(evs)| && Thens(evs)[a].Then? && Thens(evs)[b].Then? && Thens(evs)[a].p == Thens(evs)[b].p
    ensures Begun(After(evs), b) ==> Begun(After(evs), a)
  {
    EmptyIsValid();
    assert Orders(EMPTY.net);
    RunOrders(EMPTY, evs);
    RunIsAsked(evs);
    hide Run, InOrder;
    assert Siblings(After(evs).net, a, b);
    hide Siblings, Orders;
    GoneIsBegun(After(evs).net, a, b);
  }

  lemma GoneIsBegun(n: Net, a: nat, b: nat)
    requires InOrder(n, a, b)
    ensures Gone(n, b) ==> Gone(n, a)
  {
  }
}
