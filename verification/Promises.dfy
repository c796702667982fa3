// The Promise polyfill of web-adapter.js (module 38) as a transition system: what each call does to
// the promises, their registrations and the queue of immediates, and what holds over every run.
//
// User code is everything between the calls: it makes promises, registers handlers and calls
// resolvers in any order.  The callback of a handler runs between a Begin and an End.
module Promises {

  // ----- The objects -----

  // What a promise is settled with: a value without a callable `then`, the error for a promise that
  // is resolved with itself, a promise, an object whose `then` is a function of its own, or one
  // whose `then` throws when it is read.
  datatype Value = Plain(n: int) | SelfResolution | Promised(p: Promise) | Thenable(t: int) | Poisoned(thrown: Value)

  const PENDING := 0
  const FULFILLED := 1
  const REJECTED := 2
  const ADOPTED := 3

  // A registration made by `then`: which of its handlers are functions, and the promise that `then`
  // returned.  The id stands for the identity of the object.
  datatype Deferred = Deferred(id: nat, onFulfilled: bool, onRejected: bool, promise: Promise)

  // A scheduled immediate: a registration to be served, or the check for an unhandled rejection.
  datatype Job = Serve(p: Promise, d: Deferred) | Unhandled(p: Promise)

  // The callback that is running, if any.
  datatype Activity = Idle | Busy(p: Promise, d: Deferred)

  class Promise {
    var state: nat
    var handled: bool
    var value: Value
    var deferreds: seq<Deferred>  // empty for null

    constructor ()
      ensures Contents() == Cell(PENDING, false, Plain(0), [])
    {
      state, handled, value, deferreds := PENDING, false, Plain(0), [];
    }

    ghost function Contents(): Cell
      reads this
    {
      Cell(state, handled, value, deferreds)
    }
  }

  // The pair of functions that an executor, or a `then` of somebody else, is called with.  They
  // share a flag.
  class Resolver {
    const promise: Promise
    var done: bool

    constructor (p: Promise)
      ensures promise == p && !done
    {
      promise, done := p, false;
    }
  }

  // ----- The state of a run -----

  datatype Cell = Cell(state: nat, handled: bool, value: Value, deferreds: seq<Deferred>)

  // How far a registration has got: in the list of a pending promise, in the queue, its callback
  // running, or served.
  datatype Place = Waiting | Queued | Running | Done

  // Who may settle a pending promise: a resolver, or the service of a registration.
  datatype Owner = Capability(r: Resolver) | Registration(id: nat)

  // The promises and what waits for them.  The fields after `activity` record the history: the
  // registrations made, the promise each was made on and its place; and where the adoptions from a
  // promise end, with a bound on their number.
  datatype Net = Net(
    cells: map<Promise, Cell>, queue: seq<Job>, activity: Activity,
    made: map<nat, Deferred>, source: map<nat, Promise>, place: map<nat, Place>,
    root: map<Promise, Promise>, depth: map<Promise, nat>)

  // With the flags of the resolvers, the owners of the promises and the rejections reported.
  datatype World = World(net: Net, done: map<Resolver, bool>, owner: map<Promise, Owner>, reported: seq<Promise>)

  const EMPTY := World(Net(map[], [], Idle, map[], map[], map[], map[], map[]), map[], map[], [])

  // ----- The steps -----

  function Jobs(r: Promise, ds: seq<Deferred>): (js: seq<Job>)
    ensures |js| == |ds| && forall i :: 0 <= i < |ds| ==> js[i] == Serve(r, ds[i])
  {
    seq(|ds|, i requires 0 <= i < |ds| => Serve(r, ds[i]))
  }

  ghost predicate Holds(ds: seq<Deferred>, id: nat) {
    exists i :: 0 <= i < |ds| && ds[i].id == id
  }

  // The registrations `ds` reach the promise `r`, which has not adopted another.
  ghost function Deliver(w: Net, r: Promise, ds: seq<Deferred>): Net
    requires r in w.cells
  {
    var c := w.cells[r];
    if c.state == PENDING then
      w.(cells := w.cells[r := c.(deferreds := c.deferreds + ds)])
    else
      w.(cells := w.cells[r := c.(handled := c.handled || ds != [])],
         queue := w.queue + Jobs(r, ds),
         place := map id | id in w.place :: if Holds(ds, id) then Queued else w.place[id])
  }

  // A promise leaves the pending state.  Nobody may be left to hear of a rejection.
  ghost function Leave(w: Net, e: Promise, state: nat, v: Value): Net
    requires e in w.cells
  {
    var c := w.cells[e];
    w.(cells := w.cells[e := c.(state := state, value := v, deferreds := [])],
       queue := if state == REJECTED && c.deferreds == [] then w.queue + [Unhandled(e)] else w.queue)
  }

  // Its registrations move on.
  ghost function Settle(w: Net, e: Promise, state: nat, v: Value): Net
    requires e in w.cells && e in w.root && w.root[e] in w.cells
  {
    Deliver(Leave(w, e, state, v), w.root[e], w.cells[e].deferreds)
  }

  // A promise that nothing has settled is where its own adoptions end.
  ghost predicate Open(w: Net, e: Promise) {
    e in w.cells && e in w.root && w.root[e] == e && w.root.Keys == w.depth.Keys
  }

  // When it adopts `q`, all that ended there now ends where `q` does.
  ghost function Redirect(w: Net, e: Promise, q: Promise): Net
    requires q in w.root && w.root.Keys == w.depth.Keys
  {
    w.(root := map p | p in w.root :: if w.root[p] == e then w.root[q] else w.root[p],
       depth := map p | p in w.root :: if w.root[p] == e then w.depth[p] + w.depth[q] + 1 else w.depth[p])
  }

  ghost function Adopt(w: Net, e: Promise, q: Promise): Net
    requires Open(w, e) && q in w.root && w.root[q] in w.cells && w.root[q] != e
  {
    Settle(Redirect(w, e, q), e, ADOPTED, Promised(q))
  }

  // `reject`, without the guard of the resolver.
  ghost function Reject(w: Net, e: Promise, x: Value): Net
    requires Open(w, e)
  {
    Settle(w, e, REJECTED, x)
  }

  // `resolve`, without the guard of the resolver; `k` is the new resolver that a foreign `then` gets.
  ghost function Resolve(w: World, e: Promise, v: Value, k: Resolver?): World
    requires Open(w.net, e) && Resolvable(w, e, v, k)
  {
    match v
    case Promised(q) => w.(net := if q == e then Reject(w.net, e, SelfResolution) else Adopt(w.net, e, q))
    case Poisoned(x) => w.(net := Reject(w.net, e, x))
    case Thenable(_) => w.(done := w.done[k := false], owner := w.owner[e := Capability(k)])
    case _ => w.(net := Settle(w.net, e, FULFILLED, v))
  }

  // A promise that is handed over exists, and adopting it closes no cycle.
  ghost predicate Resolvable(w: World, e: Promise, v: Value, k: Resolver?) {
    && (v.Promised? ==> v.p in w.net.root && w.net.root[v.p] in w.net.cells && (v.p != e ==> w.net.root[v.p] != e))
    && (v.Thenable? ==> k != null && k !in w.done && k.promise == e)
  }

  // What user code and the host may do next.
  datatype Event =
    | New(p: Promise, r: Resolver)
    | CallResolve(r: Resolver, v: Value, k: Resolver?)
    | CallReject(r: Resolver, x: Value)
    | Then(p: Promise, onFulfilled: bool, onRejected: bool, child: Promise)
    | Begin
    | Return(v: Value, k: Resolver?)
    | Throw(x: Value)

  ghost predicate Enabled(w: World, ev: Event) {
    match ev
    case New(p, r) => p !in w.net.cells && r !in w.done && r.promise == p
    case CallResolve(r, v, k) => r in w.done && (!w.done[r] ==> Resolvable(w, r.promise, v, k))
    case CallReject(r, _) => r in w.done
    case Then(p, _, _, child) => p in w.net.cells && child !in w.net.cells
    case Begin => w.net.activity.Idle? && w.net.queue != []
    case Return(v, k) => w.net.activity.Busy? && Resolvable(w, w.net.activity.d.promise, v, k)
    case Throw(_) => w.net.activity.Busy?
  }

  ghost function Create(n: Net, p: Promise): Net {
    n.(cells := n.cells[p := Cell(PENDING, false, Plain(0), [])], root := n.root[p := p], depth := n.depth[p := 0])
  }

  ghost function Register(n: Net, p: Promise, d: Deferred): Net {
    Create(n, d.promise).(made := n.made[d.id := d], source := n.source[d.id := p], place := n.place[d.id := Waiting])
  }

  // The callback of a registration has run, or was missing.
  ghost function Finish(n: Net, id: nat): Net {
    n.(activity := Idle, place := n.place[id := Done])
  }

  // ----- The invariant -----

  // Following the adoptions from any promise ends at its root.
  ghost predicate Adoptions(w: Net) {
    && w.root.Keys == w.cells.Keys && w.depth.Keys == w.cells.Keys
    && forall p {:trigger Leads(w, p)} :: p in w.cells ==> Leads(w, p)
  }

  ghost predicate Leads(w: Net, p: Promise)
    requires p in w.cells && w.root.Keys == w.cells.Keys && w.depth.Keys == w.cells.Keys
  {
    && w.root[p] in w.cells && w.cells[w.root[p]].state < ADOPTED
    && w.cells[p].state <= ADOPTED
    && (w.cells[p].state != ADOPTED ==> w.root[p] == p)
    && (w.cells[p].state == ADOPTED ==> Adopted(w, p))
  }

  ghost predicate Adopted(w: Net, p: Promise)
    requires p in w.cells && w.root.Keys == w.cells.Keys && w.depth.Keys == w.cells.Keys
  {
    var v := w.cells[p].value;
    v.Promised? && v.p in w.cells && w.root[p] == w.root[v.p] && w.depth[p] > w.depth[v.p]
  }

  ghost predicate Active(w: World, o: Owner) {
    match o
    case Capability(r) => r in w.done && !w.done[r]
    case Registration(id) => id in w.net.place && w.net.place[id] != Done
  }

  ghost predicate Owned(w: World, p: Promise, o: Owner) {
    p in w.net.cells && w.net.cells[p].state == PENDING && p in w.owner && w.owner[p] == o
  }

  // Whoever has still to settle a promise is the only one, and the promise is pending.
  ghost predicate Owners(w: World) {
    && w.owner.Keys == w.net.cells.Keys
    && (forall r :: r in w.done && !w.done[r] ==> Owned(w, r.promise, Capability(r)))
    && (forall id :: id in w.net.made && id in w.net.place && w.net.place[id] != Done ==>
          Owned(w, w.net.made[id].promise, Registration(id)))
  }

  ghost predicate History(w: Net) {
    && w.source.Keys == w.made.Keys && w.place.Keys == w.made.Keys
    && (forall id: nat :: id in w.made <==> id < |w.made|)
    && (forall id :: id in w.made ==> w.made[id].id == id && w.source[id] in w.cells && w.source[id] in w.root)
    && (forall p :: p in w.cells && w.cells[p].state == FULFILLED ==> w.cells[p].value.Plain? || w.cells[p].value.SelfResolution?)
  }

  // The promise that a registration follows: where the one it was made on leads.
  ghost function Target(w: Net, id: nat): Promise
    requires History(w) && id in w.made
  {
    w.root[w.source[id]]
  }

  // A registration as it is recorded, with its place and the promise it follows.
  ghost predicate At(w: Net, d: Deferred, p: Promise, at: Place)
    requires History(w)
  {
    d.id in w.made && w.made[d.id] == d && w.place[d.id] == at && Target(w, d.id) == p
  }

  ghost predicate Distinct(ds: seq<Deferred>) {
    forall i, j :: 0 <= i < j < |ds| ==> ds[i].id != ds[j].id
  }

  // Those that wait are in the list of the promise they follow, once, except for `flight`.
  ghost predicate Waits(w: Net, flight: seq<Deferred>)
    requires History(w)
  {
    && (forall p :: p in w.cells ==>
          && (w.cells[p].state != PENDING ==> w.cells[p].deferreds == [])
          && Distinct(w.cells[p].deferreds))
    && (forall p, i :: p in w.cells && 0 <= i < |w.cells[p].deferreds| ==>
          At(w, w.cells[p].deferreds[i], p, Waiting) && !Holds(flight, w.cells[p].deferreds[i].id))
    && (forall id :: id in w.made && w.place[id] == Waiting ==>
          Holds(flight, id) ||
          (Target(w, id) in w.cells && w.made[id] in w.cells[Target(w, id)].deferreds))
  }

  ghost predicate Settled(w: Net, p: Promise) {
    p in w.cells && (w.cells[p].state == FULFILLED || w.cells[p].state == REJECTED)
  }

  ghost predicate Ready(w: Net, j: Job, at: Place)
    requires History(w)
  {
    Settled(w, j.p) && (j.Serve? ==> At(w, j.d, j.p, at))
  }

  ghost predicate IsFor(j: Job, id: nat) {
    j.Serve? && j.d.id == id
  }

  ghost predicate InQueue(q: seq<Job>, id: nat) {
    exists i :: 0 <= i < |q| && IsFor(q[i], id)
  }

  ghost predicate Once(q: seq<Job>) {
    forall i, j, id :: 0 <= i < j < |q| && IsFor(q[i], id) ==> !IsFor(q[j], id)
  }

  // Those that are queued are in the queue once, for the settled promise they follow.
  ghost predicate Queues(w: Net)
    requires History(w)
  {
    && (forall i :: 0 <= i < |w.queue| ==> Ready(w, w.queue[i], Queued))
    && Once(w.queue)
    && (forall id :: id in w.made && w.place[id] == Queued ==> InQueue(w.queue, id))
  }

  // At most one callback is running.  What has left the lists follows a settled promise.
  ghost predicate Runs(w: Net)
    requires History(w)
  {
    && (w.activity.Busy? ==> Settled(w, w.activity.p) && At(w, w.activity.d, w.activity.p, Running))
    && (forall id :: id in w.made && w.place[id] == Running ==> w.activity.Busy? && w.activity.d.id == id)
    && (forall id :: id in w.made && w.place[id] != Waiting ==> Settled(w, Target(w, id)))
  }

  // A settled promise is marked handled exactly when a registration follows it.
  ghost predicate Handles(w: Net, flight: seq<Deferred>)
    requires History(w)
  {
    && (forall id :: id in w.made ==> Heard(w, id, flight))
    && (forall p :: p in w.cells && w.cells[p].handled ==> Settled(w, p) && Followed(w, p))
  }

  ghost predicate Heard(w: Net, id: nat, flight: seq<Deferred>)
    requires History(w) && id in w.made
  {
    var p := Target(w, id);
    p in w.cells && (w.cells[p].state != PENDING ==> w.cells[p].handled || Holds(flight, id))
  }

  ghost predicate Followed(w: Net, p: Promise)
    requires History(w)
  {
    exists id :: id in w.made && Target(w, id) == p
  }

  // The invariant of the net while the registrations `flight` move from one list to another.
  ghost predicate InFlight(w: Net, flight: seq<Deferred>) {
    Adoptions(w) && History(w) && Waits(w, flight) && Queues(w) && Runs(w) && Handles(w, flight)
  }

  ghost predicate Inv(w: World) {
    InFlight(w.net, []) && Owners(w)
  }

  // ----- The steps of a run -----

  lemma OwnedIsOpen(w: World, p: Promise, o: Owner)
    requires Adoptions(w.net) && Owned(w, p, o)
    ensures Open(w.net, p)
  {
    assert Leads(w.net, p);
  }

  lemma SpenderOpens(w: World, r: Resolver)
    requires Inv(w) && r in w.done && !w.done[r]
    ensures Open(w.net, r.promise) && w.net.cells[r.promise].state == PENDING
  {
    hide Adoptions, Waits, Queues, Runs, Handles;
    OwnedIsOpen(w, r.promise, Capability(r));
  }

  lemma RecordOpens(w: World, id: nat)
    requires Inv(w) && id in w.net.made && id in w.net.place && w.net.place[id] != Done
    ensures Owned(w, w.net.made[id].promise, Registration(id)) && Open(w.net, w.net.made[id].promise)
  {
    hide Adoptions, Waits, Queues, Runs, Handles;
    OwnedIsOpen(w, w.net.made[id].promise, Registration(id));
  }

  lemma RunnerOpens(w: World)
    requires Inv(w) && w.net.activity.Busy?
    ensures Open(w.net, w.net.activity.d.promise) && w.net.cells[w.net.activity.d.promise].state == PENDING
  {
    hide Adoptions, Waits, Queues, Handles, Owners, Target, Settled, Open;
    RecordOpens(w, w.net.activity.d.id);
  }

  lemma HeadIsOpen(w: World)
    requires Inv(w) && w.net.queue != []
    ensures var j := w.net.queue[0];
            && Settled(w.net, j.p)
            && (w.net.cells[j.p].state == FULFILLED ==> w.net.cells[j.p].value.Plain? || w.net.cells[j.p].value.SelfResolution?)
            && (j.Serve? ==> Open(w.net, j.d.promise) && w.net.cells[j.d.promise].state == PENDING)
  {
    hide Adoptions, Waits, Runs, Handles, Owners, Target, Open;
    var j := w.net.queue[0];
    assert Ready(w.net, j, Queued);
    if j.Serve? { RecordOpens(w, j.d.id); }
  }

  lemma FollowedOpens(w: World, p: Promise)
    requires Inv(w) && p in w.net.cells
    ensures p in w.net.root && w.net.root[p] in w.net.cells
  {
    hide History, Waits, Queues, Runs, Handles, Owners;
    assert Leads(w.net, p);
  }

  // The registration at the head of the queue is taken.
  ghost function Take(n: Net, id: nat, at: Place, a: Activity): Net
    requires n.queue != []
  {
    n.(queue := n.queue[1..], activity := a, place := n.place[id := at])
  }

  // The host runs an immediate.  Without a handler the promise of the registration is settled like
  // the one it was made on.
  ghost function Start(w: World): World
    requires Inv(w) && w.net.activity.Idle? && w.net.queue != []
  {
    hide InFlight, Owners;
    HeadIsOpen(w);
    var c := w.net.cells[w.net.queue[0].p];
    match w.net.queue[0]
    case Unhandled(p) => World(w.net.(queue := w.net.queue[1..]), w.done, w.owner, if c.handled then w.reported else w.reported + [p])
    case Serve(p, d) =>
      if if c.state == FULFILLED then d.onFulfilled else d.onRejected then
        w.(net := Take(w.net, d.id, Running, Busy(p, d)))
      else if c.state == FULFILLED then
        Resolve(w.(net := Take(w.net, d.id, Done, Idle)), d.promise, c.value, null)
      else
        w.(net := Reject(Take(w.net, d.id, Done, Idle), d.promise, c.value))
  }

  ghost function Step(w: World, ev: Event): World
    requires Inv(w) && Enabled(w, ev)
  {
    hide InFlight, Owners;
    match ev
    case New(p, r) => World(Create(w.net, p), w.done[r := false], w.owner[p := Capability(r)], w.reported)
    case CallResolve(r, v, k) => if w.done[r] then w else SpenderOpens(w, r); Resolve(w.(done := w.done[r := true]), r.promise, v, k)
    case CallReject(r, x) =>
      if w.done[r] then w else SpenderOpens(w, r); w.(net := Reject(w.net, r.promise, x), done := w.done[r := true])
    case Then(p, f, g, child) =>
      FollowedOpens(w, p);
      var d := Deferred(|w.net.made|, f, g, child);
      w.(net := Deliver(Register(w.net, p, d), w.net.root[p], [d]), owner := w.owner[child := Registration(d.id)])
    case Begin => Start(w)
    case Return(v, k) =>
      RunnerOpens(w);
      var d := w.net.activity.d;
      Resolve(w.(net := Finish(w.net, d.id)), d.promise, v, k)
    case Throw(x) =>
      RunnerOpens(w);
      var d := w.net.activity.d;
      w.(net := Reject(Finish(w.net, d.id), d.promise, x))
  }
}
