/** The outgoing queue of a connection: `xmpp_send_raw` and the drain loop of `xmpp_run_once`. */
module SendQueue {
  import opened Bytes
  import opened Common

  // ----- the queue as a value

  /** Some data and how many of its bytes the socket has taken. */
  datatype Entry = Entry(data: Octets, written: nat)

  ghost predicate WellFormed(q: seq<Entry>) {
    forall k :: 0 <= k < |q| ==> q[k].written <= |q[k].data|
  }

  /** The bytes still to be sent, in order. */
  ghost function Unsent(q: seq<Entry>): Octets
    requires WellFormed(q)
  {
    if q == [] then [] else q[0].data[q[0].written..] + Unsent(q[1..])
  }

  /** What a write returns, and whether an error it reports is recoverable. */
  datatype WriteResult = WriteResult(ret: int, recoverable: bool)

  /** The socket: the result of the k-th write, of n bytes. */
  type Socket = (nat, nat) -> WriteResult

  /** It never takes more than it is given. */
  ghost predicate Sane(w: Socket) {
    forall k: nat, n: nat :: w(k, n).ret <= n
  }

  /** The effect of the drain loop: the bytes taken, what stays queued, and whether a write failed. */
  datatype Effect = Effect(sent: Octets, rest: seq<Entry>, failed: bool)

  /** The number of bytes of an entry not yet written. */
  function Left(e: Entry): nat
    requires e.written <= |e.data|
  {
    |e.data| - e.written
  }

  ghost predicate Fatal(r: WriteResult) {
    r.ret < 0 && !r.recoverable
  }

  /** The bytes that a write takes from an entry. */
  ghost function Taken(e: Entry, r: WriteResult): Octets
    requires e.written <= |e.data| && r.ret <= Left(e)
  {
    if r.ret < 0 then [] else e.data[e.written..e.written + r.ret]
  }

  ghost function After(e: Entry, r: WriteResult): (f: Entry)
    requires e.written <= |e.data| && r.ret <= Left(e)
    ensures f.written <= |f.data|
  {
    if r.ret < 0 then e else e.(written := e.written + r.ret)
  }

  /** Write entries until one is not written in full. */
  ghost function Drained(q: seq<Entry>, w: Socket, k: nat): Effect
    requires WellFormed(q) && Sane(w)
  {
    if q == [] then Effect([], [], false) else
      var e, r := q[0], w(k, Left(q[0]));
      if r.ret < Left(e) then Effect(Taken(e, r), [After(e, r)] + q[1..], Fatal(r))
      else
        var later := Drained(q[1..], w, k + 1);
        Effect(Taken(e, r) + later.sent, later.rest, later.failed)
  }

  lemma TakenAndLeft(e: Entry, r: WriteResult)
    requires e.written <= |e.data| && r.ret <= Left(e)
    ensures e.data[e.written..] == Taken(e, r) + After(e, r).data[After(e, r).written..]
    ensures r.ret == Left(e) ==> Taken(e, r) == e.data[e.written..]
  {
  }

  /** No byte is lost, repeated or reordered by a drain. */
  lemma {:induction false} DrainConserves(q: seq<Entry>, w: Socket, k: nat)
    requires WellFormed(q) && Sane(w)
    ensures var r := Drained(q, w, k);
            WellFormed(r.rest) && r.sent + Unsent(r.rest) == Unsent(q)
    decreases |q|
  {
    if q != [] {
      hide Taken, After;
      var e, r := q[0], w(k, Left(q[0]));
      TakenAndLeft(e, r);
      if r.ret < Left(e) {
        assert ([After(e, r)] + q[1..])[1..] == q[1..];
      } else {
        DrainConserves(q[1..], w, k + 1);
      }
    }
  }

  /** The i-th entry is taken in full by the i-th write from k on. */
  ghost predicate Full(q: seq<Entry>, w: Socket, k: nat, i: nat)
    requires i < |q| && WellFormed(q)
  {
    w(k + i, Left(q[i])).ret == Left(q[i])
  }

  /** A drain empties the queue exactly when every entry is taken in full by its own write. */
  lemma {:induction false} DrainCompletes(q: seq<Entry>, w: Socket, k: nat)
    requires WellFormed(q) && Sane(w)
    ensures Drained(q, w, k).rest == [] <==> forall i :: 0 <= i < |q| ==> Full(q, w, k, i)
    decreases |q|
  {
    if q != [] {
      hide Taken, After;
      DrainCompletes(q[1..], w, k + 1);
      assert Full(q, w, k, 0) <==> w(k, Left(q[0])).ret == Left(q[0]);
      var rest, next := q[1..], k + 1;
      forall i | 0 <= i < |rest|
        ensures Full(q, w, k, i + 1) <==> Full(rest, w, next, i)
      {
        assert k + (i + 1) == next + i;
      }
      assert forall i :: 0 < i < |q| ==> (Full(q, w, k, i) <==> Full(rest, w, next, i - 1));
    }
  }

  lemma {:induction false} UnsentAppend(q: seq<Entry>, e: Entry)
    requires WellFormed(q) && e.written == 0
    ensures WellFormed(q + [e]) && Unsent(q + [e]) == Unsent(q) + e.data
    decreases |q|
  {
    if q == [] {
      assert q + [e] == [e];
      assert [e][1..] == [];
    } else {
      UnsentAppend(q[1..], e);
      assert (q + [e])[1..] == q[1..] + [e];
    }
  }

  // ----- whole runs

  /**
   * What happens to a connection: the application sends, an error is noted, or the event loop drains. With TLS the
   * loop first pushes out what is pending there, with this result.
   */
  datatype Event = Send(data: Octets) | Fault | Loop(pending: Option<WriteResult>, socket: Socket)

  /** The connection: its queue, the bytes the socket took, and the bytes accepted for sending. */
  datatype Run = Run(connected: bool, error: bool, queue: seq<Entry>, sent: Octets, accepted: Octets)

  ghost predicate Failing(pending: Option<WriteResult>) {
    pending.Some? && Fatal(pending.value)
  }

  ghost predicate Possible(e: Event) {
    e.Loop? ==> Sane(e.socket)
  }

  ghost function Step(r: Run, e: Event): Run
    requires WellFormed(r.queue) && Possible(e)
  {
    if !r.connected then r else
      match e
      case Send(data) => r.(queue := r.queue + [Entry(data, 0)], accepted := r.accepted + data)
      case Fault => r.(error := true)
      case Loop(pending, w) =>
        var d := Drained(r.queue, w, 0);
        var error := r.error || Failing(pending) || d.failed;
        Run(!error, error, d.rest, r.sent + d.sent, r.accepted)
  }

  ghost predicate Conserved(r: Run) {
    WellFormed(r.queue) && r.sent + Unsent(r.queue) == r.accepted
  }

  /** Every step of a run keeps: bytes sent, then bytes queued, are the bytes accepted. */
  lemma StepConserves(r: Run, e: Event)
    requires Conserved(r) && Possible(e)
    ensures Conserved(Step(r, e))
    ensures r.sent <= Step(r, e).sent && r.accepted <= Step(r, e).accepted
  {
    hide Drained;
    match e
    case Send(data) =>
      UnsentAppend(r.queue, Entry(data, 0));
    case Fault =>
    case Loop(_, w) =>
      DrainConserves(r.queue, w, 0);
  }

  ghost function Steps(r: Run, es: seq<Event>): (q: Run)
    requires Conserved(r) && forall k :: 0 <= k < |es| ==> Possible(es[k])
    ensures Conserved(q)
  {
    if es == [] then r else
      var before := Steps(r, es[..|es| - 1]);
      StepConserves(before, es[|es| - 1]);
      Step(before, es[|es| - 1])
  }

  const START := Run(true, false, [], [], [])

  /** What was passed to `xmpp_send_raw` while connected. */
  ghost function SentWhileConnected(es: seq<Event>): Octets
    requires forall k :: 0 <= k < |es| ==> Possible(es[k])
  {
    if es == [] then [] else
      var front, last := es[..|es| - 1], es[|es| - 1];
      SentWhileConnected(front) + if last.Send? && Steps(START, front).connected then last.data else []
  }

  /** Whatever the socket does: bytes written, then bytes still queued, are everything sent, in order. */
  lemma {:induction false} RunConserves(es: seq<Event>)
    requires forall k :: 0 <= k < |es| ==> Possible(es[k])
    ensures var r := Steps(START, es); r.sent + Unsent(r.queue) == SentWhileConnected(es)
    decreases |es|
  {
    AcceptedIs(es);
  }

  lemma {:induction false} AcceptedIs(es: seq<Event>)
    requires forall k :: 0 <= k < |es| ==> Possible(es[k])
    ensures Steps(START, es).accepted == SentWhileConnected(es)
    decreases |es|
  {
    if es != [] {
      AcceptedIs(es[..|es| - 1]);
    }
  }

  // ----- the counter of the queue

  /** How many calls of `xmpp_send_raw` found the connection up. */
  ghost function Accepted(es: seq<Event>): nat
    requires forall k :: 0 <= k < |es| ==> Possible(es[k])
  {
    if es == [] then 0 else
      var front, last := es[..|es| - 1], es[|es| - 1];
      Accepted(front) + if last.Send? && Steps(START, front).connected then 1 else 0
  }

  /** The first write of this event does not take the whole head of the queue. */
  ghost predicate PopsNothing(r: Run, e: Event)
    requires WellFormed(r.queue) && Possible(e)
  {
    e.Loop? && r.connected && r.queue != [] ==> e.socket(0, Left(r.queue[0])).ret < Left(r.queue[0])
  }

  /** A drain never lengthens a queue, and keeps its length exactly when the first write is not full. */
  lemma {:induction false} DrainLength(q: seq<Entry>, w: Socket, k: nat)
    requires WellFormed(q) && Sane(w)
    ensures |Drained(q, w, k).rest| <= |q|
    ensures |Drained(q, w, k).rest| == |q| <==> (q != [] ==> w(k, Left(q[0])).ret < Left(q[0]))
    decreases |q|
  {
    if q != [] {
      DrainLength(q[1..], w, k + 1);
    }
  }

  /** The counter is never less than the length of the queue, and equals it exactly until an item is popped. */
  lemma {:induction false} QueueLength(es: seq<Event>)
    requires forall k :: 0 <= k < |es| ==> Possible(es[k])
    ensures |Steps(START, es).queue| <= Accepted(es)
    ensures |Steps(START, es).queue| == Accepted(es) <==>
            forall k :: 0 <= k < |es| ==> PopsNothing(Steps(START, es[..k]), es[k])
    decreases |es|
  {
    hide Drained, PopsNothing, Step, Steps, Accepted;
    if es == [] {
      NothingYet();
    } else {
      var n, front := |es| - 1, es[..|es| - 1];
      QueueLength(front);
      assert es[..n] == front && forall k :: 0 <= k < n ==> front[..k] == es[..k] && front[k] == es[k];
      OneMore(front, es[n]);
      assert es == front + [es[n]];
      StepLength(Steps(START, front), es[n]);
    }
  }

  lemma NothingYet()
    ensures Steps(START, []) == START && Accepted([]) == 0
  {
  }

  lemma OneMore(es: seq<Event>, e: Event)
    requires Possible(e) && forall k :: 0 <= k < |es| ==> Possible(es[k])
    ensures forall k :: 0 <= k < |es + [e]| ==> Possible((es + [e])[k])
    ensures Steps(START, es + [e]) == Step(Steps(START, es), e)
    ensures Accepted(es + [e]) == Accepted(es) + if e.Send? && Steps(START, es).connected then 1 else 0
  {
    hide Step, Possible;
    assert (es + [e])[..|es|] == es;
  }

  lemma StepLength(r: Run, e: Event)
    requires WellFormed(r.queue) && Possible(e)
    ensures var more := if e.Send? && r.connected then 1 else 0;
            && |Step(r, e).queue| <= |r.queue| + more
            && (|Step(r, e).queue| == |r.queue| + more <==> PopsNothing(r, e))
  {
    hide Drained;
    if e.Loop? {
      DrainLength(r.queue, e.socket, 0);
    }
  }

  /** One byte, sent and taken in full: the counter says 1, and the queue is empty. */
  lemma CounterStays(w: Socket)
    requires Sane(w) && w(0, 1).ret == 1
    ensures var es := [Send([0]), Loop(None, w)];
            Accepted(es) == 1 && Steps(START, es).queue == []
  {
    hide Steps, Accepted, Drained;
    NothingYet();
    OneMore([], Send([0]));
    OneMore([Send([0])], Loop(None, w));
    assert [] + [Send([0])] == [Send([0])] && [Send([0])] + [Loop(None, w)] == [Send([0]), Loop(None, w)];
    assert Steps(START, [Send([0])]).queue == [Entry([0], 0)];
    DrainCompletes([Entry([0], 0)], w, 0);
    assert Full([Entry([0], 0)], w, 0, 0);
  }

  // ----- the linked list

  class Item {
    const data: Octets
    var written: nat
    var next: Item?

    constructor (data: Octets)
      ensures this.data == data && written == 0 && next == null
    {
      this.data := data;
      written, next := 0, null;
    }
  }

  ghost function NextOf(items: seq<Item>, k: nat): Item? {
    if k + 1 < |items| then items[k + 1] else null
  }

  /** The items are linked in this order, up to a null. */
  ghost predicate Chain(items: seq<Item>)
    reads items`next
  {
    && (forall k {:trigger items[k].next} :: 0 <= k < |items| ==> items[k].next == NextOf(items, k))
    && (forall i, j :: 0 <= i < j < |items| ==> items[i] != items[j])
  }

  /** The items hold the entries of the queue. */
  ghost predicate Holds(items: seq<Item>, q: seq<Entry>)
    reads items`written
  {
    && |items| == |q|
    && forall k :: 0 <= k < |items| ==> items[k].data == q[k].data && items[k].written == q[k].written
  }

  lemma HoldsHead(items: seq<Item>, q: seq<Entry>)
    requires items != [] && Holds(items, q)
    ensures q != [] && items[0].data == q[0].data && items[0].written == q[0].written && Holds(items[1..], q[1..])
  {
  }

  lemma HeadHolds(items: seq<Item>, q: seq<Entry>)
    requires items != [] && q != [] && items[0].data == q[0].data && items[0].written == q[0].written
    requires Holds(items[1..], q[1..])
    ensures Holds(items, q)
  {
    assert forall k :: 1 <= k < |items| ==> items[k] == items[1..][k - 1] && q[k] == q[1..][k - 1];
  }

  lemma AfterHead(q: seq<Entry>, r: WriteResult)
    requires q != [] && WellFormed(q) && r.ret <= Left(q[0])
    ensures After(q[0], r) == Entry(q[0].data, if r.ret < 0 then q[0].written else q[0].written + r.ret)
    ensures WellFormed([After(q[0], r)] + q[1..])
  {
  }

  lemma ChainDistinct(items: seq<Item>)
    requires Chain(items)
    ensures forall k :: 0 < k < |items| ==> items[0] != items[k]
  {
  }

  lemma ChainRest(items: seq<Item>)
    requires items != [] && Chain(items)
    ensures Chain(items[1..]) && (items[0].next == if items[1..] == [] then null else items[1..][0])
  {
  }

  /** The effect of a whole drain, when some bytes are sent and the queue q is still to be tried. */
  ghost predicate Outcome(whole: Effect, done: Octets, q: seq<Entry>, w: Socket, n: nat)
    requires WellFormed(q) && Sane(w)
  {
    var later := Drained(q, w, n);
    whole == Effect(done + later.sent, later.rest, later.failed)
  }

  /** Only the queue has changed, and the bytes sent have grown by these. */
  ghost predicate Sends(before: Run, after: Run, done: Octets) {
    after == before.(queue := after.queue, sent := before.sent + done)
  }

  lemma SendsNothing(r: Run)
    ensures Sends(r, r, [])
  {
  }

  lemma SendsMore(a: Run, b: Run, c: Run, done: Octets, now: Octets)
    requires Sends(a, b, done) && c == b.(queue := c.queue, error := c.error, sent := b.sent + now)
    ensures c == a.(queue := c.queue, error := c.error, sent := a.sent + (done + now))
    ensures c.error == b.error ==> Sends(a, c, done + now)
  {
  }

  lemma SendsAll(a: Run, b: Run, done: Octets)
    requires Sends(a, b, done)
    ensures b == a.(queue := b.queue, sent := a.sent + done)
  {
  }

  lemma OutcomeAtStart(q: seq<Entry>, w: Socket)
    requires WellFormed(q) && Sane(w)
    ensures Outcome(Drained(q, w, 0), [], q, w, 0)
  {
  }

  lemma OutcomeAtEnd(whole: Effect, done: Octets, q: seq<Entry>, w: Socket, n: nat)
    requires WellFormed(q) && Sane(w) && q == [] && Outcome(whole, done, q, w, n)
    ensures whole == Effect(done, q, false)
  {
  }

  lemma OutcomeStep(whole: Effect, done: Octets, q: seq<Entry>, w: Socket, n: nat)
    requires WellFormed(q) && Sane(w) && q != [] && Outcome(whole, done, q, w, n)
    ensures var e, r := q[0], w(n, Left(q[0]));
            && r.ret <= Left(e)
            && (r.ret == Left(e) ==> Outcome(whole, done + Taken(e, r), q[1..], w, n + 1))
            && (r.ret < Left(e) ==> whole == Effect(done + Taken(e, r), [After(e, r)] + q[1..], Fatal(r)))
  {
    var e := q[0];
    var r := w(n, Left(e));
    if r.ret == Left(e) {
      var later := Drained(q[1..], w, n + 1);
      assert done + (Taken(e, r) + later.sent) == done + Taken(e, r) + later.sent;
    }
  }

  class Connection {
    var connected: bool
    var error: bool
    var head: Item?
    var tail: Item?
    var queueLen: nat
    ghost var items: seq<Item>
    ghost var abs: Run

    ghost predicate Valid()
      reads this, items
    {
      && connected == abs.connected && error == abs.error
      && (head == if items == [] then null else items[0])
      && (tail == if items == [] then null else items[|items| - 1])
      && Chain(items) && Holds(items, abs.queue) && WellFormed(abs.queue)
    }

    constructor ()
      ensures Valid() && abs == START && queueLen == 0 && items == []
    {
      connected, error := true, false;
      head, tail := null, null;
      queueLen := 0;
      items, abs := [], START;
    }

    /** xmpp_send_raw; the field queueLen counts the items ever queued. */
    method SendRaw(data: Octets)
      requires Valid()
      modifies this, items
      ensures Valid() && abs == Step(old(abs), Send(data))
      ensures forall i :: i in items ==> i in old(items) || fresh(i)
      ensures queueLen == old(queueLen) + if connected then 1 else 0
    {
      hide Drained;
      if !connected {
        return;
      }
      var item := new Item(data);
      if tail == null {
        head, tail := item, item;
      } else {
        tail.next := item;
        tail := item;
      }
      queueLen := queueLen + 1;
      abs := abs.(queue := abs.queue + [Entry(data, 0)], accepted := abs.accepted + data);
      assert forall k {:trigger items[k].next} :: 0 <= k < |items| ==> items[k].next == NextOf(items + [item], k);
      items := items + [item];
    }

    /** An error is noted elsewhere in the library. */
    method Fail()
      requires Valid()
      modifies this
      ensures Valid() && abs == Step(old(abs), Fault) && items == old(items) && queueLen == old(queueLen)
    {
      if connected {
        error := true;
        abs := abs.(error := true);
      }
    }

    method Perform(e: Event)
      requires Valid() && Possible(e)
      modifies this, items
      ensures Valid() && abs == Step(old(abs), e) && forall i :: i in items ==> i in old(items) || fresh(i)
      ensures queueLen == old(queueLen) + if e.Send? && old(abs.connected) then 1 else 0
    {
      hide Drained, Chain, Holds, WellFormed;
      match e {
        case Send(data) => SendRaw(data);
        case Fault => Fail();
        case Loop(pending, w) =>
          if connected {
            Drain(pending, w);
          }
      }
    }

    /** Remove the head once it is written in full; the tail becomes null with the head. */
    method Pop(ghost now: Octets)
      requires Valid() && head != null
      modifies this
      ensures Valid() && queueLen == old(queueLen) && items == old(items)[1..]
      ensures abs == old(abs).(sent := old(abs.sent) + now, queue := old(abs.queue)[1..])
    {
      hide NextOf;
      ChainRest(items);
      head := head.next;
      if head == null {
        tail := null;
      }
      items := items[1..];
      abs := abs.(sent := abs.sent + now, queue := abs.queue[1..]);
    }

    /** Note a write that did not complete. */
    method Keep(sq: Item, r: WriteResult, ghost now: Octets)
      requires Valid() && sq == head && r.ret < |sq.data| - sq.written
      modifies `error, `abs, sq`written
      ensures Valid() && queueLen == old(queueLen) && items == old(items)
      ensures abs == old(abs).(sent := old(abs.sent) + now, error := old(error) || Fatal(r),
                               queue := [After(old(abs.queue)[0], r)] + old(abs.queue)[1..])
    {
      hide Chain, Holds, WellFormed, After;
      HoldsHead(items, abs.queue);
      ghost var e, later := abs.queue[0], abs.queue[1..];
      ChainDistinct(items);
      AfterHead(abs.queue, r);
      assert sq !in items[1..];
      if r.ret < 0 {
        error := error || !r.recoverable;
      } else {
        sq.written := sq.written + r.ret;
      }
      ghost var queue := [After(e, r)] + later;
      assert queue[1..] == later;
      HeadHolds(items, queue);
      abs := abs.(sent := abs.sent + now, error := error, queue := queue);
    }

    /** One write of the drain loop, from the head of the queue; more tells whether the loop goes on. */
    method WriteHead(sq: Item, w: Socket, n: nat, ghost whole: Effect, ghost done: Octets)
      returns (more: bool, ghost now: Octets)
      requires Valid() && Sane(w) && sq == head
      requires Outcome(whole, done, abs.queue, w, n)
      modifies this, sq
      ensures Valid() && WellFormed(abs.queue) && queueLen == old(queueLen)
      ensures items == if more then old(items)[1..] else old(items)
      ensures abs == old(abs).(queue := abs.queue, error := abs.error, sent := old(abs.sent) + now)
      ensures more ==> abs.error == old(abs.error) && Outcome(whole, done + now, abs.queue, w, n + 1)
      ensures !more ==> whole.sent == done + now && abs.queue == whole.rest && abs.error == (old(abs.error) || whole.failed)
    {
      hide Drained, Outcome, Sane, Taken, After, Chain;
      OutcomeStep(whole, done, abs.queue, w, n);
      var towrite := |sq.data| - sq.written;
      var r := w(n, towrite);
      now := Taken(abs.queue[0], r);
      if r.ret < towrite {
        Keep(sq, r, now);
        more := false;
      } else {
        Pop(now);
        more := true;
      }
    }

    lemma HeadFirst()
      requires Valid() && head != null
      ensures items != [] && items[0] == head
    {
    }

    lemma Formed()
      requires Valid()
      ensures WellFormed(abs.queue)
    {
    }

    lemma NoHead()
      requires Valid() && head == null
      ensures abs.queue == []
    {
    }

    /** The drain loop for one connection. */
    method WriteAll(w: Socket)
      requires Valid() && Sane(w)
      modifies this, items
      ensures Valid() && queueLen == old(queueLen) && (forall i :: i in items ==> i in old(items))
      ensures var d := Drained(old(abs.queue), w, 0);
              abs == old(abs).(queue := d.rest, sent := old(abs.sent) + d.sent, error := old(abs.error) || d.failed)
    {
      hide Drained, Outcome, Valid, WellFormed, Sane, Sends;
      Formed();
      ghost var whole := Drained(abs.queue, w, 0);
      ghost var done: Octets := [];
      OutcomeAtStart(abs.queue, w);
      ghost var all, start := items, abs;
      SendsNothing(abs);
      var sq, n := head, 0;
      while sq != null
        invariant Valid() && WellFormed(abs.queue) && queueLen == old(queueLen) && sq == head
        invariant n <= |all| && items == all[n..]
        invariant Sends(start, abs, done)
        invariant Outcome(whole, done, abs.queue, w, n)
        decreases |all| - n
      {
        HeadFirst();
        var more;
        ghost var now, before := [], abs;
        more, now := WriteHead(sq, w, n, whole, done);
        SendsMore(start, before, abs, done, now);
        done := done + now;
        if !more {
          return;
        }
        sq, n := head, n + 1;
      }
      NoHead();
      OutcomeAtEnd(whole, done, abs.queue, w, n);
      SendsAll(start, abs, done);
    }

    /**
     * What the event loop does for a connected connection: push out what is pending in TLS, drain, and disconnect once
     * an error is noted. It drains even if the first step has failed.
     */
    method Drain(pending: Option<WriteResult>, w: Socket)
      requires Valid() && Sane(w) && connected
      modifies this, items
      ensures Valid() && abs == Step(old(abs), Loop(pending, w))
      ensures (tail == null <==> head == null) && queueLen == old(queueLen)
      ensures forall i :: i in items ==> i in old(items)
    {
      hide Drained, Chain, Holds, WellFormed;
      if pending.Some? && pending.value.ret < 0 && !pending.value.recoverable {
        error, connected := true, false;
        abs := abs.(error := true, connected := false);
      }
      WriteAll(w);
      if error {
        connected := false;
        abs := abs.(connected := false);
      }
    }
  }

  /** Any run of a connection: its queue, what was written and its counter are those of the specification. */
  method RunEvents(es: seq<Event>) returns (c: Connection)
    requires forall k :: 0 <= k < |es| ==> Possible(es[k])
    ensures fresh(c) && c.Valid() && c.abs == Steps(START, es) && c.queueLen == Accepted(es)
    ensures c.abs.sent + Unsent(c.abs.queue) == SentWhileConnected(es)
  {
    hide Connection.Valid, Step, Steps, Accepted, SentWhileConnected, Conserved;
    c := new Connection();
    assert es[..0] == [];
    NothingYet();
    for k := 0 to |es|
      invariant c.Valid() && fresh(c) && fresh(c.items)
      invariant Conserved(START) && c.abs == Steps(START, es[..k]) && c.queueLen == Accepted(es[..k])
    {
      OneMore(es[..k], es[k]);
      assert es[..k + 1] == es[..k] + [es[k]];
      assert forall i :: i in c.items ==> fresh(i);
      c.Perform(es[k]);
      forall j | 0 <= j < |c.items| ensures fresh(c.items[j]) {
        var i := c.items[j];
        assert i in c.items;
      }
    }
    assert es[..|es|] == es;
    RunConserves(es);
  }
}
