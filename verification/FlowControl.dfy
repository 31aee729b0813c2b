/** Flow-control windows of src/http2/co_http2_stream.c:104-158, 495-509, 802-816, 1266-1290 and
    src/http2/co_http2_client.c:304-319, 498-505 (section 6.9 of RFC 7540): one window, and both ends of
    a connection that carries data one way over any number of streams. */
module FlowControl {
  import opened Machine

  /** The largest window size, 2^31 - 1. */
  const MAX: u32 := 0x7FFF_FFFF

  /** What a receiver grants: the window left, and the size to which it is refilled. */
  datatype Window = Window(local: u32, max: u32)

  datatype Taken = Taken(window: Window, increment: Option<u32>)

  /** Data of size n has been consumed. At a fifth of its size the window is doubled and refilled, and
      the peer is told by how much. The comparison is over the reals. */
  function Take(w: Window, n: u32): Taken {
    var left: u32 := Reduce(w.local, n);
    if w.max as real * 0.2 >= left as real then
      var doubled := Wrap32(w.max * 2);
      var max := if doubled < MAX then doubled else MAX;
      Taken(Window(max, max), Some(Wrap32(max - left)))
    else
      Taken(Window(left, w.max), None)
  }

  function Reduce(size: u32, n: u32): u32 {
    if size > n then size - n else 0
  }

  /** An explicit WINDOW_UPDATE: the window grows by what the peer is told. */
  function Grant(w: Window, increment: u32): Taken {
    var inc := if Wrap32(w.local + increment) > MAX then Wrap32(MAX - w.local) else increment;
    var local := Wrap32(w.local + inc);
    Taken(Window(local, if local > w.max then local else w.max), Some(inc))
  }

  predicate Healthy(w: Window) {
    w.local <= w.max <= MAX && 5 * w.local > w.max
  }

  function Told(t: Taken): nat {
    if t.increment.Some? then t.increment.value else 0
  }

  // ---- one window ----

  /** Whatever is consumed, the window never exceeds its size nor the size 2^31 - 1, doubling stays
      inside 32 bits, more than a fifth is left, and the peer is told exactly what was added. */
  lemma TakeKeepsHealthy(w: Window, n: u32)
    requires Healthy(w)
    ensures w.max * 2 < TWO_32 && Healthy(Take(w, n).window) && Take(w, n).window.max >= w.max
    ensures Take(w, n).increment.Some? ==> 1 <= Take(w, n).increment.value <= MAX
    ensures n <= w.local ==> Take(w, n).window.local == w.local - n + Told(Take(w, n))
  {
  }

  /** Every increment the program sends by itself is legal exactly when the window's size is not 0. */
  lemma IncrementsLegalExactly(w: Window)
    requires w.local <= w.max <= MAX
    ensures (forall n: u32 :: Take(w, n).increment.Some? ==> 1 <= Take(w, n).increment.value <= MAX) <==> w.max >= 1
  {
    if w.max == 0 {
      var zero: u32 := 0;
      assert Take(w, zero).increment == Some(0);
    }
  }

  /** An explicit update keeps the books exactly when the sum fits 32 bits; past that the sum wraps,
      passes the limit test, and the window shrinks while the peer is told it grew. */
  lemma GrantSoundExactly(w: Window, increment: u32)
    requires Healthy(w)
    ensures var t := Grant(w, increment);
            (Healthy(t.window) && Told(t) <= MAX && t.window.local == w.local + Told(t)) <==> w.local + increment < TWO_32
  {
  }

  datatype Use = Consume(n: u32) | Extend(increment: u32)

  function Apply(w: Window, u: Use): Taken {
    match u
    case Consume(n) => Take(w, n)
    case Extend(inc) => Grant(w, inc)
  }

  /** Accepted data is never larger than the window, and explicit increments are legal sizes. */
  predicate Allowed(w: Window, u: Use) {
    match u
    case Consume(n) => n <= w.local
    case Extend(inc) => inc <= MAX
  }

  predicate AllAllowed(w: Window, uses: seq<Use>)
    decreases uses
  {
    uses == [] || (Allowed(w, uses[0]) && AllAllowed(Apply(w, uses[0]).window, uses[1..]))
  }

  function After(w: Window, uses: seq<Use>): Window
    decreases uses
  {
    if uses == [] then w else After(Apply(w, uses[0]).window, uses[1..])
  }

  function Consumed(uses: seq<Use>): nat {
    if uses == [] then 0 else (if uses[0].Consume? then uses[0].n else 0) + Consumed(uses[1..])
  }

  /** All increments the peer is told of over a run. */
  function Announced(w: Window, uses: seq<Use>): nat
    decreases uses
  {
    if uses == [] then 0 else Told(Apply(w, uses[0])) + Announced(Apply(w, uses[0]).window, uses[1..])
  }

  /** The ledger: over every run, what is left is what there was, plus all increments sent, minus the
      lengths of all accepted DATA; and the window stays healthy. */
  lemma {:induction false} LedgerBalances(w: Window, uses: seq<Use>)
    requires Healthy(w) && AllAllowed(w, uses)
    ensures Healthy(After(w, uses))
    ensures After(w, uses).local == w.local + Announced(w, uses) - Consumed(uses)
    decreases uses
  {
    if uses != [] {
      match uses[0] {
        case Consume(n) => TakeKeepsHealthy(w, n);
        case Extend(inc) => GrantSoundExactly(w, inc);
      }
      LedgerBalances(Apply(w, uses[0]).window, uses[1..]);
    }
  }

  // ---- how the window adapts ----

  /** An increment is sent exactly when at most a fifth of the size is left. It refills the window to its new
      size, which is twice the old one as far as the standard allows; otherwise only what is left changes. */
  lemma RefillsExactly(w: Window, n: u32)
    requires Healthy(w) && n <= w.local
    ensures var t := Take(w, n); var left := w.local - n;
            && (t.increment.Some? <==> 5 * left <= w.max)
            && (t.increment.Some? ==>
                  t.window.max == Min(2 * w.max, MAX) && t.window.local == t.window.max && t.increment.value + left == t.window.max)
            && (t.increment.None? ==> t.window == Window(left, w.max))
  {
  }

  /** How many increments a run sends. */
  function Increments(w: Window, ns: seq<u32>): nat
    decreases ns
  {
    if ns == [] then 0 else (if Take(w, ns[0]).increment.Some? then 1 else 0) + Increments(Take(w, ns[0]).window, ns[1..])
  }

  /** The window after data of these sizes has been consumed. */
  function Consumes(w: Window, ns: seq<u32>): Window
    decreases ns
  {
    if ns == [] then w else Consumes(Take(w, ns[0]).window, ns[1..])
  }

  predicate Fitting(w: Window, ns: seq<u32>)
    decreases ns
  {
    ns == [] || (ns[0] <= w.local && Fitting(Take(w, ns[0]).window, ns[1..]))
  }

  function Power2(k: nat): (p: nat)
    ensures p >= 1
  {
    if k == 0 then 1 else 2 * Power2(k - 1)
  }

  function Grown(m: nat, k: nat): nat {
    Min(Power2(k) * m, MAX)
  }

  lemma GrownTwice(m: nat, k: nat)
    ensures Grown(Min(2 * m, MAX), k) == Grown(m, k + 1)
  {
    assert Power2(k) * (2 * m) == Power2(k + 1) * m;
    assert Power2(k) * MAX >= MAX by { assert (Power2(k) - 1) * MAX >= 0; }
    if 2 * m >= MAX {
      assert Power2(k) * (2 * m) >= Power2(k) * MAX;
    }
  }

  /** The window doubles with every increment: after any consumption that fits, the size is the first one times
      two to the number of increments sent, and at most 2^31 - 1. */
  lemma {:induction false} SizeDoubles(w: Window, ns: seq<u32>)
    requires Healthy(w) && Fitting(w, ns)
    ensures Healthy(Consumes(w, ns)) && Consumes(w, ns).max == Grown(w.max, Increments(w, ns))
    decreases ns
  {
    hide Take, Grown, Healthy;
    if ns == [] {
      NotGrown(w);
    } else {
      var t := Take(w, ns[0]);
      TakeKeepsHealthy(w, ns[0]);
      RefillsExactly(w, ns[0]);
      SizeDoubles(t.window, ns[1..]);
      if t.increment.Some? { GrownTwice(w.max, Increments(t.window, ns[1..])); }
    }
  }

  lemma NotGrown(w: Window)
    requires Healthy(w)
    ensures Grown(w.max, 0) == w.max
  {
  }

  /** An explicit increment of a legal size adds what it says, as far as the window may grow. */
  lemma GrantsExactly(w: Window, increment: u32)
    requires Healthy(w) && increment <= MAX
    ensures var t := Grant(w, increment);
            && t.window.local == Min(w.local + increment, MAX)
            && t.window.max == (if t.window.local > w.max then t.window.local else w.max)
            && t.increment == Some(t.window.local - w.local)
  {
  }

  // ---- both ends ----

  datatype Amount = Amount(id: nat, size: u32)

  /** Data flows from a sender, which tracks the windows in `remote`, to a receiver, which keeps those in
      `local`; stream 0 is the connection. `data` and `updates` are in flight, `lost` counts credit that
      neither end will give back. A stream not in a map has its initial window still; the connection's is
      fixed when the client is set up, a stream's comes from the settings at its creation. */
  datatype Link = Link(
    connInitial: u32,
    streamInitial: u32,
    remote: map<nat, u32>,
    local: map<nat, Window>,
    data: seq<Amount>,
    updates: seq<Amount>,
    lost: map<nat, nat>)
  {
    function Initial(id: nat): u32 { if id == 0 then connInitial else streamInitial }
    function Remote(id: nat): u32 { if id in remote then remote[id] else Initial(id) }
    function Local(id: nat): Window { if id in local then local[id] else Window(Initial(id), Initial(id)) }
    function Lost(id: nat): nat { if id in lost then lost[id] else 0 }
    function Sendable(id: nat): u32 { Min(Remote(0), Remote(id)) }
    function Lose(id: nat, n: nat): Link { this.(lost := lost[id := Lost(id) + n]) }
  }

  /** DATA in flight that counts against the window of `id`: all of it for the connection. */
  function DataOf(data: seq<Amount>, id: nat): nat {
    if data == [] then 0 else (if id == 0 || data[0].id == id then data[0].size else 0) + DataOf(data[1..], id)
  }

  function UpdatesOf(updates: seq<Amount>, id: nat): nat {
    if updates == [] then 0 else (if updates[0].id == id then updates[0].size else 0) + UpdatesOf(updates[1..], id)
  }

  /** What the receiver makes of a DATA frame: it knows no such open stream, its handler cancels, or it
      accepts. Its own state machine may no longer let it send WINDOW_UPDATE on the stream: the window grows all
      the same, and the peer is not told. */
  datatype Outcome = Dropped | Cancelled(mayUpdate: bool) | Accepted(mayUpdate: bool)

  datatype Action =
    | SendData(id: nat, size: u32)
    | ReceiveData(outcome: Outcome)
    | ReceiveUpdate(known: bool)
    | SendUpdate(id: nat, increment: u32, mayUpdate: bool)

  function TakeAt(l: Link, id: nat, n: u32, mayUpdate: bool): Link {
    var t := Take(l.Local(id), n);
    var l1 := l.(local := l.local[id := t.window]);
    match t.increment
    case None => l1
    case Some(inc) => if mayUpdate then l1.(updates := l1.updates + [Amount(id, inc)]) else l1.Lose(id, inc)
  }

  predicate Fits(l: Link, d: Amount) {
    d.size <= Min(l.Local(d.id).local, l.Local(0).local)
  }

  function Arrive(l: Link, d: Amount, outcome: Outcome): Link {
    if outcome.Dropped? || !Fits(l, d) then l.Lose(0, d.size).Lose(d.id, d.size)
    else
      var l1 := TakeAt(l, d.id, d.size, outcome.mayUpdate);
      if outcome.Cancelled? then l1.Lose(0, d.size) else TakeAt(l1, 0, d.size, true)
  }

  predicate Overflows(l: Link, u: Amount) {
    Wrap32(l.Remote(u.id) + u.size) > MAX
  }

  function Credit(l: Link, u: Amount, known: bool): Link {
    if (!known && u.id != 0) || Overflows(l, u) then l.Lose(u.id, u.size)
    else l.(remote := l.remote[u.id := Wrap32(l.Remote(u.id) + u.size)])
  }

  function Send(l: Link, id: nat, size: u32): Link {
    var l1 := l.(remote := l.remote[0 := Reduce(l.Remote(0), size)]);
    l1.(remote := l1.remote[id := Reduce(l1.Remote(id), size)], data := l.data + [Amount(id, size)])
  }

  function Step(l: Link, act: Action): Link {
    match act
    case SendData(id, size) => Send(l, id, size)
    case ReceiveData(outcome) => if l.data == [] then l else Arrive(l.(data := l.data[1..]), l.data[0], outcome)
    case ReceiveUpdate(known) =>
      if l.updates == [] then l else Credit(l.(updates := l.updates[1..]), l.updates[0], known)
    case SendUpdate(id, increment, mayUpdate) =>
      var t := Grant(l.Local(id), increment);
      var l1 := l.(local := l.local[id := t.window]);
      if mayUpdate || id == 0 then l1.(updates := l1.updates + [Amount(id, Told(t))]) else l1.Lose(id, Told(t))
  }

  /** What the two programs are asked to keep to: data only as far as the sender's own windows allow
      (src/http2/co_http2_stream.c:1356-1369), and no explicit increment above the legal maximum. */
  predicate Polite(l: Link, act: Action) {
    match act
    case SendData(id, size) => id != 0 && size <= l.Sendable(id)
    case SendUpdate(_, increment, _) => increment <= MAX
    case _ => true
  }

  function Run(l: Link, acts: seq<Action>): Link
    decreases acts
  {
    if acts == [] then l else Run(Step(l, acts[0]), acts[1..])
  }

  predicate AllPolite(l: Link, acts: seq<Action>)
    decreases acts
  {
    acts == [] || (Polite(l, acts[0]) && AllPolite(Step(l, acts[0]), acts[1..]))
  }

  predicate Balanced(l: Link, id: nat) {
    l.Remote(id) + UpdatesOf(l.updates, id) + DataOf(l.data, id) + l.Lost(id) == l.Local(id).local
  }

  ghost predicate Inv(l: Link) {
    && (forall id: nat :: Balanced(l, id))
    && (forall id: nat :: Healthy(l.Local(id)))
    && (forall k :: 0 <= k < |l.data| ==> l.data[k].id != 0)
  }

  lemma {:induction false} DataSnoc(data: seq<Amount>, d: Amount, id: nat)
    ensures DataOf(data + [d], id) == DataOf(data, id) + (if id == 0 || d.id == id then d.size else 0)
  {
    if data == [] {
      assert [] + [d] == [d];
    } else {
      assert (data + [d])[1..] == data[1..] + [d];
      DataSnoc(data[1..], d, id);
    }
  }

  lemma {:induction false} UpdatesSnoc(updates: seq<Amount>, u: Amount, id: nat)
    ensures UpdatesOf(updates + [u], id) == UpdatesOf(updates, id) + (if u.id == id then u.size else 0)
  {
    if updates == [] {
      assert [] + [u] == [u];
    } else {
      assert (updates + [u])[1..] == updates[1..] + [u];
      UpdatesSnoc(updates[1..], u, id);
    }
  }

  lemma SendKeepsInv(l: Link, id: nat, size: u32)
    requires Inv(l) && id != 0 && size <= l.Sendable(id)
    ensures Inv(Send(l, id, size))
  {
    var l' := Send(l, id, size);
    forall i: nat ensures Balanced(l', i) && Healthy(l'.Local(i)) {
      DataSnoc(l.data, Amount(id, size), i);
      assert Balanced(l, i) && Healthy(l.Local(i));
    }
  }

  /** The balance of `id` when the amount `owed` is still to be taken from its window. */
  predicate Owing(l: Link, id: nat, owed: nat) {
    l.Remote(id) + UpdatesOf(l.updates, id) + DataOf(l.data, id) + l.Lost(id) + owed == l.Local(id).local
  }

  lemma TakeSettles(l: Link, id: nat, n: u32, mayUpdate: bool, i: nat, owed: nat)
    requires Healthy(l.Local(id)) && n <= l.Local(id).local && Healthy(l.Local(i))
    requires Owing(l, i, owed) && (i == id ==> owed >= n)
    ensures var l' := TakeAt(l, id, n, mayUpdate);
            && Owing(l', i, if i == id then owed - n else owed) && Healthy(l'.Local(i)) && l'.data == l.data
            && (i != id ==> l'.Local(i) == l.Local(i))
  {
    TakeKeepsHealthy(l.Local(id), n);
    var t := Take(l.Local(id), n);
    if t.increment.Some? {
      UpdatesSnoc(l.updates, Amount(id, t.increment.value), i);
    }
  }

  lemma LoseSettles(l: Link, id: nat, n: nat, i: nat, owed: nat)
    requires Owing(l, i, owed) && (i == id ==> owed >= n)
    ensures Owing(l.Lose(id, n), i, if i == id then owed - n else owed)
    ensures l.Lose(id, n).Local(i) == l.Local(i)
  {
  }

  lemma ArriveSettles(l: Link, d: Amount, outcome: Outcome, i: nat)
    requires d.id != 0 && Healthy(l.Local(d.id)) && Healthy(l.Local(0)) && Healthy(l.Local(i))
    requires Owing(l, 0, d.size) && Owing(l, d.id, d.size)
    requires i != 0 && i != d.id ==> Owing(l, i, 0)
    ensures Fits(l, d)
    ensures Owing(Arrive(l, d, outcome), i, 0) && Healthy(Arrive(l, d, outcome).Local(i))
  {
    hide TakeAt, Healthy, UpdatesOf, DataOf;
    var owed := if i == 0 || i == d.id then d.size else 0;
    if outcome.Dropped? {
      LoseSettles(l, 0, d.size, i, owed);
      LoseSettles(l.Lose(0, d.size), d.id, d.size, i, if i == 0 then 0 else owed);
    } else {
      TakeSettles(l, d.id, d.size, outcome.mayUpdate, i, owed);
      TakeSettles(l, d.id, d.size, outcome.mayUpdate, 0, d.size);
      var l1 := TakeAt(l, d.id, d.size, outcome.mayUpdate);
      var rest := if i == 0 then d.size else 0;
      if outcome.Cancelled? {
        LoseSettles(l1, 0, d.size, i, rest);
      } else {
        TakeSettles(l1, 0, d.size, true, i, rest);
      }
    }
  }

  lemma ReceiveDataKeepsInv(l: Link, outcome: Outcome)
    requires Inv(l) && l.data != []
    ensures Inv(Step(l, ReceiveData(outcome)))
    ensures Fits(l, l.data[0])
  {
    hide Healthy, UpdatesOf, Arrive;
    var d := l.data[0];
    var l0 := l.(data := l.data[1..]);
    var l' := Arrive(l0, d, outcome);
    assert Balanced(l, 0) && Balanced(l, d.id) && Healthy(l.Local(0)) && Healthy(l.Local(d.id));
    forall i: nat ensures Balanced(l', i) && Healthy(l'.Local(i)) && Fits(l0, d) && l'.data == l0.data {
      assert Balanced(l, i) && Healthy(l.Local(i));
      ArriveSettles(l0, d, outcome, i);
      ArriveOnlyTakes(l0, d, outcome);
    }
    assert Balanced(l', 0);
  }

  lemma ArriveOnlyTakes(l: Link, d: Amount, outcome: Outcome)
    ensures Arrive(l, d, outcome).data == l.data
  {
  }

  lemma CreditSettles(l: Link, u: Amount, known: bool, i: nat)
    requires Healthy(l.Local(u.id)) && Owing(l, u.id, u.size) && Owing(l, i, if i == u.id then u.size else 0)
    ensures !Overflows(l, u)
    ensures Balanced(Credit(l, u, known), i) && Credit(l, u, known).Local(i) == l.Local(i) && Credit(l, u, known).data == l.data
  {
    hide DataOf, UpdatesOf;
    assert l.Remote(u.id) + u.size <= l.Local(u.id).local;
  }

  lemma ReceiveUpdateKeepsInv(l: Link, known: bool)
    requires Inv(l) && l.updates != []
    ensures Inv(Step(l, ReceiveUpdate(known)))
    ensures !Overflows(l, l.updates[0])
  {
    hide Healthy, Overflows, Credit, DataOf;
    var u := l.updates[0];
    var l0 := l.(updates := l.updates[1..]);
    var l' := Credit(l0, u, known);
    assert Balanced(l, u.id) && Healthy(l.Local(u.id));
    forall i: nat ensures Balanced(l', i) && Healthy(l'.Local(i)) && !Overflows(l0, u) && l'.data == l.data {
      assert Balanced(l, i) && Healthy(l.Local(i));
      CreditSettles(l0, u, known, i);
    }
    assert Balanced(l', 0);
    SameOverflow(l, l0, u);
  }

  lemma SameOverflow(l: Link, l0: Link, u: Amount)
    requires l.remote == l0.remote && l.connInitial == l0.connInitial && l.streamInitial == l0.streamInitial
    ensures Overflows(l, u) == Overflows(l0, u)
  {
  }

  lemma LegalGrantIsSound(w: Window, increment: u32)
    requires Healthy(w) && increment <= MAX
    ensures var t := Grant(w, increment); Healthy(t.window) && Told(t) <= MAX && t.window.local == w.local + Told(t)
  {
    GrantSoundExactly(w, increment);
  }

  lemma GrantSettles(l: Link, id: nat, increment: u32, mayUpdate: bool, i: nat)
    requires Healthy(l.Local(id)) && Healthy(l.Local(i)) && Balanced(l, i) && increment <= MAX
    ensures var l' := Step(l, SendUpdate(id, increment, mayUpdate));
            Balanced(l', i) && Healthy(l'.Local(i)) && l'.data == l.data
  {
    hide Grant, Healthy, UpdatesOf, DataOf, Told;
    LegalGrantIsSound(l.Local(id), increment);
    UpdatesSnoc(l.updates, Amount(id, Told(Grant(l.Local(id), increment))), i);
  }

  lemma SendUpdateKeepsInv(l: Link, id: nat, increment: u32, mayUpdate: bool)
    requires Inv(l) && increment <= MAX
    ensures Inv(Step(l, SendUpdate(id, increment, mayUpdate)))
  {
    hide Step, Balanced, Healthy;
    assert Healthy(l.Local(id));
    GrantSettles(l, id, increment, mayUpdate, id);
    var l' := Step(l, SendUpdate(id, increment, mayUpdate));
    forall i: nat ensures Balanced(l', i) && Healthy(l'.Local(i)) {
      assert Balanced(l, i) && Healthy(l.Local(i));
      GrantSettles(l, id, increment, mayUpdate, i);
    }
  }

  lemma StepKeepsInv(l: Link, act: Action)
    requires Inv(l) && Polite(l, act)
    ensures Inv(Step(l, act))
  {
    hide Inv;
    match act {
      case SendData(id, size) => SendKeepsInv(l, id, size);
      case ReceiveData(outcome) => if l.data != [] { ReceiveDataKeepsInv(l, outcome); }
      case ReceiveUpdate(known) => if l.updates != [] { ReceiveUpdateKeepsInv(l, known); }
      case SendUpdate(id, increment, mayUpdate) => SendUpdateKeepsInv(l, id, increment, mayUpdate);
    }
  }

  lemma {:induction false} RunKeepsInv(l: Link, acts: seq<Action>)
    requires Inv(l) && AllPolite(l, acts)
    ensures Inv(Run(l, acts))
    decreases acts
  {
    hide Inv, Step, Polite;
    if acts != [] {
      StepKeepsInv(l, acts[0]);
      RunKeepsInv(Step(l, acts[0]), acts[1..]);
    }
  }

  function Fresh(conn: u32, stream: u32): Link {
    Link(conn, stream, map[], map[], [], [], map[])
  }

  /** Over every run, on every stream and on the connection: credit is conserved, so no DATA that the
      sender's own windows allow is ever refused for its size and no WINDOW_UPDATE ever overflows. */
  lemma CreditConserved(conn: u32, stream: u32, acts: seq<Action>, id: nat)
    requires 1 <= conn <= MAX && 1 <= stream <= MAX && AllPolite(Fresh(conn, stream), acts)
    ensures var l := Run(Fresh(conn, stream), acts);
            && l.Remote(id) + UpdatesOf(l.updates, id) + DataOf(l.data, id) + l.Lost(id) == l.Local(id).local
            && Healthy(l.Local(id))
            && (l.data != [] ==> Fits(l, l.data[0]))
            && (l.updates != [] ==> !Overflows(l, l.updates[0]))
  {
    var l := Run(Fresh(conn, stream), acts);
    assert Inv(Fresh(conn, stream));
    RunKeepsInv(Fresh(conn, stream), acts);
    assert Balanced(l, id) && Healthy(l.Local(id));
    if l.data != [] { ReceiveDataKeepsInv(l, Dropped); }
    if l.updates != [] { ReceiveUpdateKeepsInv(l, true); }
  }

  /** When nothing is in flight and nothing was lost, the sender's limit is exact: the receiver accepts
      the next DATA if and only if its size is within what the sender believes it may send. */
  lemma SendableIsExact(l: Link, id: nat, size: u32)
    requires Inv(l) && id != 0 && l.data == [] && l.updates == [] && l.Lost(0) == 0 && l.Lost(id) == 0
    ensures Fits(l, Amount(id, size)) <==> size <= l.Sendable(id)
  {
    assert Balanced(l, 0) && Balanced(l, id);
  }

  // ---- DATA that is dropped or cancelled ----

  /** The DATA in front arrives and no stream takes it: none is open for it, or its handler cancels. */
  predicate Discards(l: Link, act: Action) {
    act.ReceiveData? && !act.outcome.Accepted? && l.data != []
  }

  /** The sizes of all DATA that was discarded over a run. */
  function Discarded(l: Link, acts: seq<Action>): nat
    decreases acts
  {
    if acts == [] then 0
    else (if Discards(l, acts[0]) then l.data[0].size else 0) + Discarded(Step(l, acts[0]), acts[1..])
  }

  /** Every DATA frame that arrived in the run was taken, or was empty. */
  predicate TakesAll(l: Link, acts: seq<Action>)
    decreases acts
  {
    acts == [] || ((Discards(l, acts[0]) ==> l.data[0].size == 0) && TakesAll(Step(l, acts[0]), acts[1..]))
  }

  lemma TakeLosesNothing(l: Link, id: nat, n: u32, mayUpdate: bool)
    requires id != 0 || mayUpdate
    ensures TakeAt(l, id, n, mayUpdate).Lost(0) == l.Lost(0)
  {
    hide Take;
  }

  lemma ArriveLosesWhatItDiscards(l: Link, d: Amount, outcome: Outcome)
    requires d.id != 0 && Fits(l, d)
    ensures Arrive(l, d, outcome).Lost(0) == l.Lost(0) + if outcome.Accepted? then 0 else d.size
  {
    hide TakeAt;
    if !outcome.Dropped? {
      TakeLosesNothing(l, d.id, d.size, outcome.mayUpdate);
      TakeLosesNothing(TakeAt(l, d.id, d.size, outcome.mayUpdate), 0, d.size, true);
    }
  }

  lemma StepLosesWhatItDiscards(l: Link, act: Action)
    requires Inv(l) && Polite(l, act)
    ensures Step(l, act).Lost(0) == l.Lost(0) + if Discards(l, act) then l.data[0].size else 0
  {
    hide Grant, Healthy, Balanced, Arrive, Overflows, Fits;
    match act {
      case SendData(_, _) =>
      case ReceiveData(outcome) =>
        if l.data != [] {
          var l0 := l.(data := l.data[1..]);
          ReceiveDataKeepsInv(l, outcome);
          SameFit(l, l0, l.data[0]);
          ArriveLosesWhatItDiscards(l0, l.data[0], outcome);
        }
      case ReceiveUpdate(known) =>
        if l.updates != [] {
          ReceiveUpdateKeepsInv(l, known);
          SameOverflow(l, l.(updates := l.updates[1..]), l.updates[0]);
        }
      case SendUpdate(_, _, _) =>
    }
  }

  lemma SameFit(l: Link, l0: Link, d: Amount)
    requires l.local == l0.local && l.connInitial == l0.connInitial && l.streamInitial == l0.streamInitial
    ensures Fits(l, d) == Fits(l0, d)
  {
  }

  lemma {:induction false} LostIsDiscarded(l: Link, acts: seq<Action>)
    requires Inv(l) && AllPolite(l, acts)
    ensures Run(l, acts).Lost(0) == l.Lost(0) + Discarded(l, acts)
    ensures Discarded(l, acts) == 0 <==> TakesAll(l, acts)
    decreases acts
  {
    hide Inv, Step, Polite;
    if acts != [] {
      StepKeepsInv(l, acts[0]);
      StepLosesWhatItDiscards(l, acts[0]);
      LostIsDiscarded(Step(l, acts[0]), acts[1..]);
    }
  }

  /** The receive loop charges the connection only for DATA that a stream took (section 6.9 of RFC 7540
      charges all of it), and the sender has paid for the rest. So once nothing is in flight, the sender's
      connection window is behind the receiver's by what was discarded over the whole run: they agree exactly
      if every DATA frame that was not empty was taken. */
  lemma DroppedDataLeaksExactly(conn: u32, stream: u32, acts: seq<Action>)
    requires 1 <= conn <= MAX && 1 <= stream <= MAX && AllPolite(Fresh(conn, stream), acts)
    ensures var l := Run(Fresh(conn, stream), acts);
            l.data == [] && l.updates == [] ==>
              && l.Local(0).local - l.Remote(0) == Discarded(Fresh(conn, stream), acts)
              && (l.Remote(0) == l.Local(0).local <==> TakesAll(Fresh(conn, stream), acts))
  {
    hide Step, Polite, Discards, Discarded, TakesAll, Run, AllPolite;
    var l0 := Fresh(conn, stream);
    CreditConserved(conn, stream, acts, 0);
    assert Inv(l0);
    LostIsDiscarded(l0, acts);
  }
}
