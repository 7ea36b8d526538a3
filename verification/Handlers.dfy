/** The list of stanza handlers: a linked list walked while callbacks append to it. */
module Handlers {
  import opened Common
  import opened Stanzas

  /** What a handler is registered for; handler stands for the function pointer. */
  datatype Spec = Spec(handler: nat, user: bool, ns: Option<string>, name: Option<string>, kind: Option<string>)

  /** What one call of a callback does: it asks to be kept or not, adds handlers, and may authenticate. */
  datatype Outcome = Outcome(keep: bool, adds: seq<Spec>, authenticates: bool)

  predicate Matches(h: Spec, stanza: Stanza) {
    Passes(h.ns, h.name, h.kind, stanza)
  }

  predicate Knows(list: seq<Spec>, handler: nat) {
    exists k :: 0 <= k < |list| && list[k].handler == handler
  }

  /** A function that is already in the list is not added again. */
  function AddTo(list: seq<Spec>, h: Spec): (r: seq<Spec>)
    ensures list <= r
  {
    if Knows(list, h.handler) then list else list + [h]
  }

  function AddAll(list: seq<Spec>, hs: seq<Spec>): (r: seq<Spec>)
    ensures list <= r
    decreases |hs|
  {
    if hs == [] then list else AddAll(AddTo(list, hs[0]), hs[1..])
  }

  function RemoveFrom(list: seq<Spec>, handler: nat): seq<Spec> {
    if list == [] then []
    else if list[0].handler == handler then list[1..]
    else [list[0]] + RemoveFrom(list[1..], handler)
  }

  ghost predicate Distinct(list: seq<Spec>) {
    forall i, j :: 0 <= i < j < |list| ==> list[i].handler != list[j].handler
  }

  // ----- one pass, on sequences

  datatype Result = Result(list: seq<Spec>, called: seq<Spec>, authenticated: bool)

  predicate Skipped(h: Spec, stanza: Stanza, authenticated: bool) {
    (h.user && !authenticated) || !Matches(h, stanza)
  }

  /**
   * The pass when kept handlers have been passed and left in the list, todo are those that were there at the start
   * and are still to be visited, and added are new; the n-th call has the outcome f(n).
   */
  ghost function Pass(stanza: Stanza, f: nat -> Outcome, kept: seq<Spec>, todo: seq<Spec>, added: seq<Spec>,
                      authenticated: bool, n: nat): Result
    decreases |todo|
  {
    if todo == [] then Result(kept + added, [], authenticated) else
      var h := todo[0];
      if Skipped(h, stanza, authenticated) then
        Pass(stanza, f, kept + [h], todo[1..], added, authenticated, n)
      else
        var o := f(n);
        var more := AddAll(kept + todo + added, o.adds)[|kept + todo|..];
        var r := Pass(stanza, f, if o.keep then kept + [h] else kept, todo[1..], more,
                      authenticated || o.authenticates, n + 1);
        Result(r.list, [h] + r.called, r.authenticated)
  }

  /** The handlers of todo that are due when their turn comes; a user handler is not, until a call authenticates. */
  ghost function Due(todo: seq<Spec>, stanza: Stanza, f: nat -> Outcome, authenticated: bool, n: nat): seq<Spec>
    decreases |todo|
  {
    if todo == [] then []
    else if Skipped(todo[0], stanza, authenticated) then Due(todo[1..], stanza, f, authenticated, n)
    else [todo[0]] + Due(todo[1..], stanza, f, authenticated || f(n).authenticates, n + 1)
  }

  /** The calls are those that match and are allowed, each once and in order, whatever is added or removed meanwhile. */
  lemma {:induction false} CalledInOrder(stanza: Stanza, f: nat -> Outcome, kept: seq<Spec>, todo: seq<Spec>,
                                         added: seq<Spec>, authenticated: bool, n: nat)
    ensures Pass(stanza, f, kept, todo, added, authenticated, n).called == Due(todo, stanza, f, authenticated, n)
    decreases |todo|
  {
    hide Skipped, AddAll;
    if todo != [] {
      var h, o := todo[0], f(n);
      if Skipped(h, stanza, authenticated) {
        CalledInOrder(stanza, f, kept + [h], todo[1..], added, authenticated, n);
      } else {
        CalledInOrder(stanza, f, if o.keep then kept + [h] else kept, todo[1..],
                      AddAll(kept + todo + added, o.adds)[|kept + todo|..], authenticated || o.authenticates, n + 1);
      }
    }
  }

  /** Handlers that are not the user's are called exactly when they match, whatever the callbacks do. */
  lemma {:induction false} SystemHandlersRun(todo: seq<Spec>, stanza: Stanza, f: nat -> Outcome, authenticated: bool,
                                             n: nat, h: Spec)
    requires h in todo && (authenticated || !h.user)
    ensures h in Due(todo, stanza, f, authenticated, n) <==> Matches(h, stanza)
    decreases |todo|
  {
    hide Matches;
    var rest := todo[1..];
    var skip := Skipped(todo[0], stanza, authenticated);
    var auth, k := if skip then authenticated else authenticated || f(n).authenticates, if skip then n else n + 1;
    if h in rest {
      SystemHandlersRun(rest, stanza, f, auth, k, h);
    } else {
      DueAreThere(rest, stanza, f, auth, k);
    }
  }

  lemma {:induction false} DueAreThere(todo: seq<Spec>, stanza: Stanza, f: nat -> Outcome, authenticated: bool, n: nat)
    ensures forall h :: h in Due(todo, stanza, f, authenticated, n) ==> h in todo
    decreases |todo|
  {
    hide Skipped;
    if todo != [] {
      DueAreThere(todo[1..], stanza, f, authenticated, n);
      DueAreThere(todo[1..], stanza, f, authenticated || f(n).authenticates, n + 1);
    }
  }

  /** One of the calls from m up to n authenticates. */
  ghost predicate AuthenticatedBy(f: nat -> Outcome, m: nat, n: nat) {
    exists k :: m <= k < n && f(k).authenticates
  }

  /** What is due after some handlers depends on what their calls have done. */
  lemma {:induction false} DueAfter(before: seq<Spec>, rest: seq<Spec>, stanza: Stanza, f: nat -> Outcome,
                                    authenticated: bool, n: nat)
    ensures var first := Due(before, stanza, f, authenticated, n);
            Due(before + rest, stanza, f, authenticated, n) ==
            first + Due(rest, stanza, f, authenticated || AuthenticatedBy(f, n, n + |first|), n + |first|)
    decreases |before|
  {
    hide Skipped;
    if before == [] {
      assert before + rest == rest;
    } else {
      assert (before + rest)[1..] == before[1..] + rest;
      if Skipped(before[0], stanza, authenticated) {
        DueAfter(before[1..], rest, stanza, f, authenticated, n);
      } else {
        var auth := authenticated || f(n).authenticates;
        DueAfter(before[1..], rest, stanza, f, auth, n + 1);
        var end := n + 1 + |Due(before[1..], stanza, f, auth, n + 1)|;
        assert AuthenticatedBy(f, n, end) <==> f(n).authenticates || AuthenticatedBy(f, n + 1, end);
      }
    }
  }

  /**
   * A handler that is there at the start is called exactly when its filters fit and, if it is the user's, the
   * connection was authenticated before the pass or by a call before its turn.
   */
  lemma CalledExactlyWhen(stanza: Stanza, f: nat -> Outcome, kept: seq<Spec>, before: seq<Spec>, h: Spec,
                          after: seq<Spec>, added: seq<Spec>, authenticated: bool, n: nat)
    requires Distinct(before + [h] + after)
    ensures var earlier := Pass(stanza, f, kept, before, added, authenticated, n).called;
            h in Pass(stanza, f, kept, before + [h] + after, added, authenticated, n).called <==>
              && (h.ns.None? || stanza.ns == h.ns.value || exists c :: c in stanza.children && c.ns == h.ns.value)
              && (h.name.None? || stanza.name == h.name.value)
              && (h.kind.None? || stanza.kind == h.kind)
              && (h.user ==> authenticated || exists k :: n <= k < n + |earlier| && f(k).authenticates)
  {
    hide Pass;
    var rest := [h] + after;
    assert before + [h] + after == before + rest;
    CalledInOrder(stanza, f, kept, before + rest, added, authenticated, n);
    CalledInOrder(stanza, f, kept, before, added, authenticated, n);
    DueAfter(before, rest, stanza, f, authenticated, n);
    var m := n + |Due(before, stanza, f, authenticated, n)|;
    var auth := authenticated || AuthenticatedBy(f, n, m);
    DueAreThere(before, stanza, f, authenticated, n);
    assert rest[1..] == after;
    DueAreThere(after, stanza, f, auth, m);
    DueAreThere(after, stanza, f, auth || f(m).authenticates, m + 1);
    DistinctWithout(before, h, after);
    ChildOfNs(stanza, h);
  }

  lemma ChildOfNs(stanza: Stanza, h: Spec)
    ensures Matches(h, stanza) <==>
              && (h.ns.None? || stanza.ns == h.ns.value || exists c :: c in stanza.children && c.ns == h.ns.value)
              && (h.name.None? || stanza.name == h.name.value)
              && (h.kind.None? || stanza.kind == h.kind)
  {
  }

  /** Before authentication a user handler is called only if an earlier call of the pass has authenticated. */
  lemma {:induction false} UserHandlersWait(stanza: Stanza, f: nat -> Outcome, kept: seq<Spec>, todo: seq<Spec>,
                                            added: seq<Spec>, n: nat, i: nat)
    requires i < |Pass(stanza, f, kept, todo, added, false, n).called|
    requires Pass(stanza, f, kept, todo, added, false, n).called[i].user
    ensures exists k :: n <= k < n + i && f(k).authenticates
    decreases |todo|
  {
    hide AddAll, Matches;
    var h, o := todo[0], f(n);
    if Skipped(h, stanza, false) {
      UserHandlersWait(stanza, f, kept + [h], todo[1..], added, n, i);
    } else if i > 0 && !o.authenticates {
      UserHandlersWait(stanza, f, if o.keep then kept + [h] else kept, todo[1..],
                       AddAll(kept + todo + added, o.adds)[|kept + todo|..], n + 1, i - 1);
    }
  }

  lemma DistinctCons(h: Spec, called: seq<Spec>, todo: seq<Spec>)
    requires todo != [] && Distinct(todo) && todo[0] == h && Distinct(called)
    requires forall c :: c in called ==> c in todo[1..]
    ensures Distinct([h] + called)
  {
    forall j | 0 <= j < |called| ensures called[j].handler != h.handler {
      assert called[j] in called;
      var i :| 0 <= i < |todo[1..]| && todo[1..][i] == called[j];
      assert todo[i + 1].handler != todo[0].handler;
    }
  }

  /** Only handlers that were there at the start are called, whatever the callbacks do. */
  lemma {:induction false} NewAreNotCalled(stanza: Stanza, f: nat -> Outcome, kept: seq<Spec>, todo: seq<Spec>,
                                           added: seq<Spec>, authenticated: bool, n: nat)
    requires Distinct(todo)
    ensures var called := Pass(stanza, f, kept, todo, added, authenticated, n).called;
            Distinct(called) && forall c :: c in called ==> c in todo && Matches(c, stanza)
    decreases |todo|
  {
    hide Matches, AddAll;
    if todo != [] {
      var h, o, rest := todo[0], f(n), todo[1..];
      if Skipped(h, stanza, authenticated) {
        NewAreNotCalled(stanza, f, kept + [h], rest, added, authenticated, n);
      } else {
        var keep, more := if o.keep then kept + [h] else kept, AddAll(kept + todo + added, o.adds)[|kept + todo|..];
        NewAreNotCalled(stanza, f, keep, rest, more, authenticated || o.authenticates, n + 1);
        DistinctCons(h, Pass(stanza, f, keep, rest, more, authenticated || o.authenticates, n + 1).called, todo);
      }
    }
  }

  /** What stays of todo: the handlers that are skipped, and those whose call asks to be kept. */
  ghost function Survivors(todo: seq<Spec>, stanza: Stanza, f: nat -> Outcome, authenticated: bool, n: nat): seq<Spec>
    decreases |todo|
  {
    if todo == [] then []
    else if Skipped(todo[0], stanza, authenticated) then [todo[0]] + Survivors(todo[1..], stanza, f, authenticated, n)
    else
      (if f(n).keep then [todo[0]] else [])
      + Survivors(todo[1..], stanza, f, authenticated || f(n).authenticates, n + 1)
  }

  /** The handler is added by one of the calls from m up to n. */
  ghost predicate AddedBy(f: nat -> Outcome, m: nat, n: nat, h: Spec) {
    exists k :: m <= k < n && h in f(k).adds
  }

  /**
   * The list afterwards is the kept handlers in their order, then the new ones in theirs: all that were new before,
   * and what the calls of this pass add. Each function that a call adds was there already, or is now.
   */
  lemma {:induction false} KeptThenNew(stanza: Stanza, f: nat -> Outcome, kept: seq<Spec>, todo: seq<Spec>,
                                       added: seq<Spec>, authenticated: bool, n: nat) returns (news: seq<Spec>)
    ensures Pass(stanza, f, kept, todo, added, authenticated, n).list ==
            kept + Survivors(todo, stanza, f, authenticated, n) + news
    ensures added <= news
    ensures var end := n + |Due(todo, stanza, f, authenticated, n)|;
            && (forall h :: h in news[|added|..] ==> AddedBy(f, n, end, h))
            && (forall h :: AddedBy(f, n, end, h) ==> Knows(kept + todo + news, h.handler))
    decreases |todo|
  {
    hide Pass, Survivors, Due, Skipped, AddAll, Knows, AddedBy;
    news := added;
    PassStep(stanza, f, kept, todo, added, authenticated, n);
    if todo == [] {
      NoneAdded(f, n);
    } else {
      var h, o, rest := todo[0], f(n), todo[1..];
      if Skipped(h, stanza, authenticated) {
        news := KeptThenNew(stanza, f, kept + [h], rest, added, authenticated, n);
        assert kept + [h] + Survivors(rest, stanza, f, authenticated, n) ==
               kept + ([h] + Survivors(rest, stanza, f, authenticated, n));
        assert kept + [h] + rest == kept + todo;
      } else {
        var keep, auth := if o.keep then kept + [h] else kept, authenticated || o.authenticates;
        var all := AddAll(kept + todo + added, o.adds);
        AddedAreKnown(kept + todo + added, o.adds);
        news := KeptThenNew(stanza, f, keep, rest, all[|kept + todo|..], auth, n + 1);
        assert keep + Survivors(rest, stanza, f, auth, n + 1) ==
               kept + ((if o.keep then [h] else []) + Survivors(rest, stanza, f, auth, n + 1));
        NewsGrow(f, n, n + 1 + |Due(rest, stanza, f, auth, n + 1)|, kept, todo, added, all, keep, rest, news);
      }
    }
  }

  /** One step of the pass. */
  lemma PassStep(stanza: Stanza, f: nat -> Outcome, kept: seq<Spec>, todo: seq<Spec>, added: seq<Spec>,
                 authenticated: bool, n: nat)
    ensures var list, stay := Pass(stanza, f, kept, todo, added, authenticated, n).list,
                              Survivors(todo, stanza, f, authenticated, n);
            var due := |Due(todo, stanza, f, authenticated, n)|;
            if todo == [] then list == kept + added && stay == [] && due == 0 else
              var h, o, rest := todo[0], f(n), todo[1..];
              if Skipped(h, stanza, authenticated) then
                && list == Pass(stanza, f, kept + [h], rest, added, authenticated, n).list
                && stay == [h] + Survivors(rest, stanza, f, authenticated, n)
                && due == |Due(rest, stanza, f, authenticated, n)|
              else
                var auth := authenticated || o.authenticates;
                && list == Pass(stanza, f, if o.keep then kept + [h] else kept, rest,
                                AddAll(kept + todo + added, o.adds)[|kept + todo|..], auth, n + 1).list
                && stay == (if o.keep then [h] else []) + Survivors(rest, stanza, f, auth, n + 1)
                && due == 1 + |Due(rest, stanza, f, auth, n + 1)|
  {
    hide Skipped, AddAll;
  }

  lemma NoneAdded(f: nat -> Outcome, n: nat)
    ensures forall h :: !AddedBy(f, n, n, h)
  {
  }

  lemma KnowsMore(a: seq<Spec>, b: seq<Spec>, handler: nat)
    requires Knows(a, handler) && forall h :: h in a ==> h in b
    ensures Knows(b, handler)
  {
    var k :| 0 <= k < |a| && a[k].handler == handler;
    assert a[k] in b;
  }

  /** What is added comes from the list that was given, and all of it is known afterwards. */
  lemma {:induction false} AddedAreKnown(list: seq<Spec>, hs: seq<Spec>)
    ensures forall h :: h in AddAll(list, hs)[|list|..] ==> h in hs
    ensures forall h :: h in hs ==> Knows(AddAll(list, hs), h.handler)
    decreases |hs|
  {
    if hs != [] {
      var one := AddTo(list, hs[0]);
      AddedAreKnown(one, hs[1..]);
      assert one != list ==> one[|list|] == hs[0];
      assert Knows(one, hs[0].handler);
      KnowsMore(one, AddAll(list, hs), hs[0].handler);
    }
  }

  lemma NewsGrow(f: nat -> Outcome, n: nat, end: nat, kept: seq<Spec>, todo: seq<Spec>, added: seq<Spec>,
                 all: seq<Spec>, keep: seq<Spec>, rest: seq<Spec>, news: seq<Spec>)
    requires n < end && kept + todo + added <= all && all[|kept + todo|..] <= news
    requires forall h :: h in keep + rest ==> h in kept + todo
    requires forall h :: h in all[|kept + todo + added|..] ==> h in f(n).adds
    requires forall h :: h in f(n).adds ==> Knows(all, h.handler)
    requires forall h :: h in news[|all[|kept + todo|..]|..] ==> AddedBy(f, n + 1, end, h)
    requires forall h :: AddedBy(f, n + 1, end, h) ==> Knows(keep + rest + news, h.handler)
    ensures added <= news
    ensures forall h :: h in news[|added|..] ==> AddedBy(f, n, end, h)
    ensures forall h :: AddedBy(f, n, end, h) ==> Knows(kept + todo + news, h.handler)
  {
    hide Knows;
    var more, m := all[|kept + todo|..], |added|;
    assert more[..m] == added && more[m..] == all[|kept + todo + added|..];
    assert news[m..] == more[m..] + news[|more|..];
    assert all == kept + todo + more;
    forall h | AddedBy(f, n, end, h) ensures Knows(kept + todo + news, h.handler) {
      if h in f(n).adds {
        KnowsMore(all, kept + todo + news, h.handler);
      } else {
        assert AddedBy(f, n + 1, end, h);
        KnowsMore(keep + rest + news, kept + todo + news, h.handler);
      }
    }
  }

  /** The i-th call from here on drops its handler. */
  ghost predicate DropsAt(todo: seq<Spec>, stanza: Stanza, f: nat -> Outcome, authenticated: bool, n: nat, i: nat, h: Spec)
  {
    i < |Due(todo, stanza, f, authenticated, n)| && Due(todo, stanza, f, authenticated, n)[i] == h && !f(n + i).keep
  }

  /** A handler stays exactly when no call drops it. */
  lemma {:induction false} StaysUnlessDropped(todo: seq<Spec>, stanza: Stanza, f: nat -> Outcome, authenticated: bool,
                                              n: nat, h: Spec)
    requires Distinct(todo) && h in todo
    ensures h in Survivors(todo, stanza, f, authenticated, n) <==>
            !exists i: nat :: DropsAt(todo, stanza, f, authenticated, n, i, h)
    decreases |todo|
  {
    hide Skipped;
    var first, rest, o := todo[0], todo[1..], f(n);
    var skip := Skipped(first, stanza, authenticated);
    var auth, m := if skip then authenticated else authenticated || o.authenticates, if skip then n else n + 1;
    DueAreThere(rest, stanza, f, auth, m);
    SurvivorsAreThere(rest, stanza, f, auth, m);
    if h == first {
      assert h !in rest;
      assert !skip && !o.keep ==> DropsAt(todo, stanza, f, authenticated, n, 0, h);
    } else {
      StaysUnlessDropped(rest, stanza, f, auth, m, h);
      if skip {
        assert forall i: nat :: DropsAt(todo, stanza, f, authenticated, n, i, h) <==>
                                DropsAt(rest, stanza, f, auth, m, i, h);
      } else if h in Survivors(rest, stanza, f, auth, m) {
        forall i: nat | DropsAt(todo, stanza, f, authenticated, n, i, h) ensures false {
          DropsLater(todo, stanza, f, authenticated, n, i - 1, h);
        }
      } else {
        var i: nat :| DropsAt(rest, stanza, f, auth, m, i, h);
        DropsLater(todo, stanza, f, authenticated, n, i, h);
      }
    }
  }

  lemma {:induction false} SurvivorsAreThere(todo: seq<Spec>, stanza: Stanza, f: nat -> Outcome, authenticated: bool,
                                             n: nat)
    ensures forall h :: h in Survivors(todo, stanza, f, authenticated, n) ==> h in todo
    decreases |todo|
  {
    hide Skipped;
    if todo != [] {
      SurvivorsAreThere(todo[1..], stanza, f, authenticated, n);
      SurvivorsAreThere(todo[1..], stanza, f, authenticated || f(n).authenticates, n + 1);
    }
  }

  /** Past a call, the later calls are counted from the next one. */
  lemma DropsLater(todo: seq<Spec>, stanza: Stanza, f: nat -> Outcome, authenticated: bool, n: nat, i: nat, h: Spec)
    requires todo != [] && !Skipped(todo[0], stanza, authenticated)
    ensures DropsAt(todo, stanza, f, authenticated, n, i + 1, h) <==>
            DropsAt(todo[1..], stanza, f, authenticated || f(n).authenticates, n + 1, i, h)
  {
    hide Skipped;
  }

  /**
   * A handler whose call does not ask to keep it is gone after the pass, whatever the other calls ask for, if no later
   * call adds it again.
   */
  lemma {:induction false} OneShotIsGone(stanza: Stanza, f: nat -> Outcome, kept: seq<Spec>, todo: seq<Spec>,
                                         added: seq<Spec>, authenticated: bool, n: nat, i: nat, h: Spec)
    requires Distinct(kept + todo + added) && DropsAt(todo, stanza, f, authenticated, n, i, h)
    requires !AddedBy(f, n + i + 1, n + |Due(todo, stanza, f, authenticated, n)|, h)
    ensures h !in Pass(stanza, f, kept, todo, added, authenticated, n).list
    decreases |todo|
  {
    hide Skipped, Distinct, AddAll;
    var o, rest, all := f(n), todo[1..], kept + todo + added;
    if Skipped(todo[0], stanza, authenticated) {
      assert kept + [todo[0]] + rest + added == all;
      OneShotIsGone(stanza, f, kept + [todo[0]], rest, added, authenticated, n, i, h);
    } else {
      var auth, more := authenticated || o.authenticates, AddAll(all, o.adds)[|kept + todo|..];
      AddAllDistinct(all, o.adds);
      assert AddAll(all, o.adds) == kept + [todo[0]] + (rest + more);
      DistinctWithout(kept, todo[0], rest + more);
      assert kept + rest + more == kept + (rest + more) && kept + [todo[0]] + rest + more == AddAll(all, o.adds);
      if i == 0 {
        GoneStays(stanza, f, kept, rest, more, auth, n + 1, h);
      } else {
        OneShotIsGone(stanza, f, if o.keep then kept + [todo[0]] else kept, rest, more, auth, n + 1, i - 1, h);
      }
    }
  }

  lemma DistinctWithout(a: seq<Spec>, h: Spec, b: seq<Spec>)
    requires Distinct(a + [h] + b)
    ensures Distinct(a + b) && h !in a && h !in b
  {
    var all := a + [h] + b;
    forall i, j | 0 <= i < j < |a + b| ensures (a + b)[i].handler != (a + b)[j].handler {
      assert all[if i < |a| then i else i + 1] == (a + b)[i] && all[if j < |a| then j else j + 1] == (a + b)[j];
    }
    forall i | 0 <= i < |a| ensures a[i].handler != h.handler {
      assert all[i] == a[i] && all[|a|] == h;
    }
    forall i | 0 <= i < |b| ensures b[i].handler != h.handler {
      assert all[|a| + 1 + i] == b[i] && all[|a|] == h;
    }
  }

  lemma NotAdded(f: nat -> Outcome, n: nat, end: nat, h: Spec)
    requires n < end && !AddedBy(f, n, end, h)
    ensures h !in f(n).adds
  {
  }

  lemma {:induction false} GoneStays(stanza: Stanza, f: nat -> Outcome, kept: seq<Spec>, todo: seq<Spec>,
                                     added: seq<Spec>, authenticated: bool, n: nat, h: Spec)
    requires h !in kept && h !in todo && h !in added
    requires !AddedBy(f, n, n + |Due(todo, stanza, f, authenticated, n)|, h)
    ensures h !in Pass(stanza, f, kept, todo, added, authenticated, n).list
    decreases |todo|
  {
    hide Skipped;
    if todo != [] {
      var o, rest := f(n), todo[1..];
      var all := kept + todo + added;
      if Skipped(todo[0], stanza, authenticated) {
        GoneStays(stanza, f, kept + [todo[0]], rest, added, authenticated, n, h);
      } else {
        NotAdded(f, n, n + |Due(todo, stanza, f, authenticated, n)|, h);
        AddAllHolds(all, o.adds, h);
        GoneStays(stanza, f, if o.keep then kept + [todo[0]] else kept, rest,
                  AddAll(all, o.adds)[|kept + todo|..], authenticated || o.authenticates, n + 1, h);
      }
    }
  }

  lemma {:induction false} AddAllHolds(list: seq<Spec>, hs: seq<Spec>, h: Spec)
    requires h !in hs
    ensures h in AddAll(list, hs) <==> h in list
    decreases |hs|
  {
    if hs != [] {
      AddAllHolds(AddTo(list, hs[0]), hs[1..], h);
    }
  }

  lemma {:induction false} AddAllDistinct(list: seq<Spec>, hs: seq<Spec>)
    requires Distinct(list)
    ensures Distinct(AddAll(list, hs))
    decreases |hs|
  {
    if hs != [] {
      AddAllDistinct(AddTo(list, hs[0]), hs[1..]);
    }
  }

  // ----- the linked list

  /** xmpp_handlist_t */
  class Node {
    const spec: Spec
    var enabled: bool
    var next: Node?

    constructor (spec: Spec)
      ensures this.spec == spec && !enabled && next == null
    {
      this.spec := spec;
      enabled, next := false, null;
    }
  }

  ghost function Specs(nodes: seq<Node>): (s: seq<Spec>)
    ensures |s| == |nodes| && forall k :: 0 <= k < |s| ==> s[k] == nodes[k].spec
  {
    seq(|nodes|, k requires 0 <= k < |nodes| => nodes[k].spec)
  }

  ghost function NodeAt(nodes: seq<Node>, k: nat): Node? {
    if k < |nodes| then nodes[k] else null
  }

  ghost function Before(nodes: seq<Node>, k: nat): Node?
    requires k <= |nodes|
  {
    if k == 0 then null else nodes[k - 1]
  }

  ghost predicate Chain(nodes: seq<Node>)
    reads nodes
  {
    && (forall k {:trigger nodes[k].next} :: 0 <= k < |nodes| ==> nodes[k].next == NodeAt(nodes, k + 1))
    && (forall i, j :: 0 <= i < j < |nodes| ==> nodes[i] != nodes[j])
  }

  /** The first k nodes are enabled, or have been visited; no other is. */
  ghost predicate EnabledFrom(nodes: seq<Node>, i: nat, k: nat)
    reads nodes
  {
    forall j :: i <= j < |nodes| ==> (nodes[j].enabled <==> j < k)
  }

  lemma SpecsWithout(nodes: seq<Node>, i: nat)
    requires i < |nodes|
    ensures Specs(Without(nodes, i)) == Without(Specs(nodes), i)
  {
  }

  lemma {:induction false} RemoveAt(list: seq<Spec>, i: nat, handler: nat)
    requires i < |list| && list[i].handler == handler
    requires forall k :: 0 <= k < i ==> list[k].handler != handler
    ensures RemoveFrom(list, handler) == Without(list, i)
    decreases i
  {
    if i > 0 {
      RemoveAt(list[1..], i - 1, handler);
      assert Without(list, i) == [list[0]] + Without(list[1..], i - 1);
    }
  }

  lemma {:induction false} RemoveNone(list: seq<Spec>, handler: nat)
    requires forall k :: 0 <= k < |list| ==> list[k].handler != handler
    ensures RemoveFrom(list, handler) == list
    decreases |list|
  {
    if list != [] {
      RemoveNone(list[1..], handler);
    }
  }

  /** The fields of xmpp_conn_t for stanza handlers. */
  class HandlerList {
    var head: Node?
    var authenticated: bool
    ghost var nodes: seq<Node>

    ghost predicate Valid()
      reads this, nodes
    {
      head == NodeAt(nodes, 0) && Chain(nodes)
    }

    /** The registered handlers, in the order of the list. */
    ghost function List(): seq<Spec>
      reads this
    {
      Specs(nodes)
    }

    constructor ()
      ensures Valid() && List() == [] && !authenticated
    {
      head, authenticated := null, false;
      nodes := [];
    }

    /** Look for a handler, with the node before it. */
    method Find(handler: nat) returns (item: Node?, prev: Node?, ghost i: nat)
      requires Valid()
      ensures i <= |nodes| && item == NodeAt(nodes, i) && prev == Before(nodes, i)
      ensures forall k :: 0 <= k < i ==> nodes[k].spec.handler != handler
      ensures i < |nodes| ==> nodes[i].spec.handler == handler
    {
      prev, item, i := null, head, 0;
      while item != null
        invariant i <= |nodes| && item == NodeAt(nodes, i) && prev == Before(nodes, i)
        invariant forall k :: 0 <= k < i ==> nodes[k].spec.handler != handler
        decreases |nodes| - i
      {
        if item.spec.handler == handler {
          return;
        }
        prev, item, i := item, item.next, i + 1;
      }
    }

    /** _handler_add */
    method Add(h: Spec)
      requires Valid()
      modifies this`head, this`nodes, nodes
      ensures Valid() && List() == AddTo(old(List()), h)
      ensures old(nodes) <= nodes && forall k :: |old(nodes)| <= k < |nodes| ==> fresh(nodes[k]) && !nodes[k].enabled
      ensures forall n :: n in old(nodes) ==> n.enabled == old(n.enabled)
    {
      ghost var i: nat;
      var item, prev;
      item, prev, i := Find(h.handler);
      KnownAt(nodes, i, h.handler);
      if item != null {
        return;
      }
      item := new Node(h);
      if head == null {
        head := item;
      } else {
        var tail := Tail();
        tail.next := item;
      }
      assert forall k {:trigger nodes[k].next} :: 0 <= k < |nodes| ==> nodes[k].next == NodeAt(nodes + [item], k + 1);
      assert Specs(nodes + [item]) == Specs(nodes) + [h];
      nodes := nodes + [item];
    }

    method Tail() returns (tail: Node)
      requires Valid() && head != null
      ensures tail == nodes[|nodes| - 1]
    {
      tail := head;
      ghost var i: nat := 0;
      while tail.next != null
        invariant i < |nodes| && tail == nodes[i]
        decreases |nodes| - i
      {
        tail, i := tail.next, i + 1;
      }
    }

    /** Unlink a node. */
    method Unlink(item: Node, prev: Node?, ghost i: nat)
      requires Valid() && i < |nodes| && item == nodes[i] && prev == Before(nodes, i)
      modifies this`head, this`nodes, nodes
      ensures Valid() && nodes == Without(old(nodes), i)
      ensures forall n :: n in old(nodes) ==> n.enabled == old(n.enabled)
    {
      if prev != null {
        prev.next := item.next;
      } else {
        head := item.next;
      }
      ghost var rest := Without(nodes, i);
      forall k | 0 <= k < |rest| ensures rest[k].next == NodeAt(rest, k + 1) {
        assert nodes[if k < i then k else k + 1].next == rest[k].next;
      }
      nodes := rest;
    }

    /** xmpp_handler_delete */
    method Delete(handler: nat)
      requires Valid()
      modifies this`head, this`nodes, nodes
      ensures Valid() && List() == RemoveFrom(old(List()), handler)
    {
      ghost var i: nat;
      var item, prev;
      item, prev, i := Find(handler);
      if item != null {
        RemoveAt(Specs(nodes), i, handler);
        SpecsWithout(nodes, i);
        Unlink(item, prev, i);
      } else {
        RemoveNone(Specs(nodes), handler);
      }
    }

    /** All handlers in the list are enabled. */
    method EnableAll()
      requires Valid()
      modifies nodes
      ensures Valid() && forall k :: 0 <= k < |nodes| ==> nodes[k].enabled
    {
      var item := head;
      ghost var i: nat := 0;
      while item != null
        invariant i <= |nodes| && item == NodeAt(nodes, i) && Valid()
        invariant forall k :: 0 <= k < i ==> nodes[k].enabled
        decreases |nodes| - i
      {
        item.enabled := true;
        item, i := item.next, i + 1;
      }
    }

    /** What a callback does to the list. */
    method RunCallback(o: Outcome)
      requires Valid()
      modifies this, nodes
      ensures Valid() && List() == AddAll(old(List()), o.adds)
      ensures authenticated == (old(authenticated) || o.authenticates)
      ensures old(nodes) <= nodes && forall k :: |old(nodes)| <= k < |nodes| ==> fresh(nodes[k]) && !nodes[k].enabled
      ensures forall n :: n in old(nodes) ==> n.enabled == old(n.enabled)
    {
      hide AddTo, Chain, NodeAt;
      for k := 0 to |o.adds|
        invariant Valid() && AddAll(List(), o.adds[k..]) == AddAll(old(List()), o.adds)
        invariant authenticated == old(authenticated)
        invariant old(nodes) <= nodes
        invariant forall j :: |old(nodes)| <= j < |nodes| ==> fresh(nodes[j]) && !nodes[j].enabled
        invariant forall n :: n in old(nodes) ==> n.enabled == old(n.enabled)
      {
        assert o.adds[k..][1..] == o.adds[k + 1..];
        Add(o.adds[k]);
      }
      if o.authenticates {
        authenticated := true;
      }
    }

    /** One call: the node is unlinked unless the callback asks to keep it. */
    method CallItem(item: Node, prev: Node?, o: Outcome, ghost i: nat, ghost left: nat)
      returns (next: Node?, last: Node?)
      requires Valid() && i < |nodes| && item == nodes[i] && prev == Before(nodes, i)
      requires 0 < left && i + left <= |nodes| && EnabledFrom(nodes, i, i + left)
      modifies this, nodes
      ensures Valid() && authenticated == (old(authenticated) || o.authenticates)
      ensures var all := AddAll(old(List()), o.adds); List() == if o.keep then all else Without(all, i)
      ensures forall n :: n in nodes ==> n in old(nodes) || fresh(n)
      ensures var j := if o.keep then i + 1 else i;
              && j + left - 1 <= |nodes| && next == NodeAt(nodes, j) && last == Before(nodes, j)
              && EnabledFrom(nodes, j, j + left - 1)
    {
      hide AddAll, Specs;
      RunCallback(o);
      if o.keep {
        return item.next, item;
      }
      SpecsWithout(nodes, i);
      Unlink(item, prev, i);
      assert i > 0 ==> nodes[i - 1] == prev;
      last := prev;
      next := if prev != null then prev.next else head;
    }

    /** handler_fire_stanza, from the enabling of the handlers on. */
    method Fire(stanza: Stanza, f: nat -> Outcome) returns (called: seq<Spec>)
      requires Valid()
      modifies this, nodes
      ensures Valid()
      ensures Pass(stanza, f, [], old(List()), [], old(authenticated), 0) == Result(List(), called, authenticated)
    {
      hide Skipped, Chain, NodeAt, Specs, AddAll, Pass, PassOf, Continues, EnabledFrom, Without;
      EnableAll();
      called := [];
      var prev: Node?, item := null, head;
      ghost var i: nat, left: nat := 0, |nodes|;
      ghost var whole := PassOf(stanza, f, List(), 0, |nodes|, authenticated, 0);
      PassWhole(stanza, f, List(), authenticated);
      AllEnabled(nodes);
      ContinuesAtStart(whole);
      while item != null
        invariant Valid() && i + left <= |nodes| && item == NodeAt(nodes, i) && prev == Before(nodes, i)
        invariant EnabledFrom(nodes, i, i + left)
        invariant Continues(whole, called, PassOf(stanza, f, List(), i, left, authenticated, |called|))
        invariant forall n :: n in nodes ==> n in old(nodes) || fresh(n)
        decreases left, |nodes| - i
      {
        ItemIn(nodes, i, item);
        NotEnabledMeans(nodes, i, left);
        if !item.enabled {
          PassEnd(stanza, f, List(), i, authenticated, |called|);
          PassEnd(stanza, f, List(), i + 1, authenticated, |called|);
          NextIn(nodes, i);
          prev, item, i := item, item.next, i + 1;
          EnabledLater(nodes, i - 1, left);
        } else if Skipped(item.spec, stanza, authenticated) {
          PassSkip(stanza, f, List(), i, left, authenticated, |called|);
          NextIn(nodes, i);
          prev, item, i, left := item, item.next, i + 1, left - 1;
          EnabledMore(nodes, i - 1, i + left);
        } else {
          CallContinues(whole, called, stanza, f, List(), i, left, authenticated);
          var o, h := f(|called|), item.spec;
          assert forall k :: 0 <= k < |nodes| ==> nodes[k] in nodes;
          item, prev := CallItem(item, prev, o, i, left);
          called := called + [h];
          i, left := if o.keep then i + 1 else i, left - 1;
        }
      }
      AtEnd(nodes, i);
      PassEnd(stanza, f, List(), i, authenticated, |called|);
      ContinuesAtEnd(whole, called, Result(List(), [], authenticated));
    }
  }

  lemma KnownAt(nodes: seq<Node>, i: nat, handler: nat)
    requires i <= |nodes| && forall k :: 0 <= k < i ==> nodes[k].spec.handler != handler
    requires i < |nodes| ==> nodes[i].spec.handler == handler
    ensures Knows(Specs(nodes), handler) <==> i < |nodes|
  {
  }

  /** The rest of a pass at position i of a list of which the next left handlers were there at the start. */
  ghost function PassOf(stanza: Stanza, f: nat -> Outcome, list: seq<Spec>, i: nat, left: nat, authenticated: bool,
                        n: nat): Result
    requires i + left <= |list|
  {
    Pass(stanza, f, list[..i], list[i..i + left], list[i + left..], authenticated, n)
  }

  lemma PassWhole(stanza: Stanza, f: nat -> Outcome, list: seq<Spec>, authenticated: bool)
    ensures PassOf(stanza, f, list, 0, |list|, authenticated, 0) == Pass(stanza, f, [], list, [], authenticated, 0)
  {
    hide Pass;
    assert list[0..|list|] == list && list[..0] == [] && list[|list|..] == [];
  }

  lemma PassEnd(stanza: Stanza, f: nat -> Outcome, list: seq<Spec>, i: nat, authenticated: bool, n: nat)
    requires i <= |list|
    ensures PassOf(stanza, f, list, i, 0, authenticated, n) == Result(list, [], authenticated)
  {
  }

  lemma PassSkip(stanza: Stanza, f: nat -> Outcome, list: seq<Spec>, i: nat, left: nat, authenticated: bool, n: nat)
    requires 0 < left && i + left <= |list| && Skipped(list[i], stanza, authenticated)
    ensures PassOf(stanza, f, list, i, left, authenticated, n) ==
            PassOf(stanza, f, list, i + 1, left - 1, authenticated, n)
  {
    hide Skipped;
    var todo := list[i..i + left];
    assert todo[1..] == list[i + 1..i + 1 + (left - 1)];
    assert list[..i] + [todo[0]] == list[..i + 1];
  }

  lemma PassOnce(stanza: Stanza, f: nat -> Outcome, kept: seq<Spec>, todo: seq<Spec>, added: seq<Spec>,
                 authenticated: bool, n: nat)
    requires todo != [] && !Skipped(todo[0], stanza, authenticated)
    ensures var o := f(n);
            var r := Pass(stanza, f, if o.keep then kept + [todo[0]] else kept, todo[1..],
                          AddAll(kept + todo + added, o.adds)[|kept| + |todo|..],
                          authenticated || o.authenticates, n + 1);
            Pass(stanza, f, kept, todo, added, authenticated, n) ==
            Result(r.list, [todo[0]] + r.called, r.authenticated)
  {
  }

  lemma Reassembled(list: seq<Spec>, i: nat, left: nat)
    requires i + left <= |list|
    ensures list[..i] + list[i..i + left] + list[i + left..] == list
  {
  }

  lemma KeepSlices(list: seq<Spec>, all: seq<Spec>, i: nat, left: nat)
    requires 0 < left && i + left <= |list| && list <= all
    ensures list[..i] + [list[i..i + left][0]] == all[..i + 1]
    ensures list[i..i + left][1..] == all[i + 1..i + 1 + (left - 1)]
  {
  }

  lemma PassKeep(stanza: Stanza, f: nat -> Outcome, list: seq<Spec>, i: nat, left: nat, authenticated: bool, n: nat)
    requires 0 < left && i + left <= |list| && !Skipped(list[i], stanza, authenticated) && f(n).keep
    ensures var r := PassOf(stanza, f, AddAll(list, f(n).adds), i + 1, left - 1, authenticated || f(n).authenticates,
                            n + 1);
            PassOf(stanza, f, list, i, left, authenticated, n) == Result(r.list, [list[i]] + r.called, r.authenticated)
  {
    hide Skipped, AddAll, Pass, Without;
    var kept, todo, added := list[..i], list[i..i + left], list[i + left..];
    var all := AddAll(list, f(n).adds);
    Reassembled(list, i, left);
    PassOnce(stanza, f, kept, todo, added, authenticated, n);
    KeepSlices(list, all, i, left);
  }

  lemma WithoutSlices(list: seq<Spec>, all: seq<Spec>, i: nat, left: nat)
    requires 0 < left && i + left <= |list| && list <= all
    ensures var rest := Without(all, i);
            && |rest| == |all| - 1 && rest[..i] == list[..i]
            && rest[i..i + (left - 1)] == list[i..i + left][1..]
            && rest[i + (left - 1)..] == all[i + left..]
  {
  }

  lemma PassDrop(stanza: Stanza, f: nat -> Outcome, list: seq<Spec>, i: nat, left: nat, authenticated: bool, n: nat)
    requires 0 < left && i + left <= |list| && !Skipped(list[i], stanza, authenticated) && !f(n).keep
    ensures var r := PassOf(stanza, f, Without(AddAll(list, f(n).adds), i), i, left - 1,
                            authenticated || f(n).authenticates, n + 1);
            PassOf(stanza, f, list, i, left, authenticated, n) == Result(r.list, [list[i]] + r.called, r.authenticated)
  {
    hide Skipped, AddAll, Pass, Without;
    var kept, todo, added := list[..i], list[i..i + left], list[i + left..];
    var all := AddAll(list, f(n).adds);
    Reassembled(list, i, left);
    PassOnce(stanza, f, kept, todo, added, authenticated, n);
    WithoutSlices(list, all, i, left);
  }

  ghost predicate Continues(whole: Result, called: seq<Spec>, rest: Result) {
    whole == Result(rest.list, called + rest.called, rest.authenticated)
  }

  lemma ContinuesAtStart(whole: Result)
    ensures Continues(whole, [], whole)
  {
  }

  lemma ContinuesAtEnd(whole: Result, called: seq<Spec>, rest: Result)
    requires Continues(whole, called, rest) && rest.called == []
    ensures whole == Result(rest.list, called, rest.authenticated)
  {
  }

  lemma ContinuesCall(whole: Result, called: seq<Spec>, h: Spec, now: Result, later: Result)
    requires Continues(whole, called, now) && now == Result(later.list, [h] + later.called, later.authenticated)
    ensures Continues(whole, called + [h], later)
  {
  }

  lemma CallContinues(whole: Result, called: seq<Spec>, stanza: Stanza, f: nat -> Outcome, list: seq<Spec>, i: nat,
                      left: nat, authenticated: bool)
    requires 0 < left && i + left <= |list| && !Skipped(list[i], stanza, authenticated)
    requires Continues(whole, called, PassOf(stanza, f, list, i, left, authenticated, |called|))
    ensures var o, n := f(|called|), |called| + 1;
            var all, auth, now := AddAll(list, o.adds), authenticated || o.authenticates, called + [list[i]];
            && (o.keep ==> Continues(whole, now, PassOf(stanza, f, all, i + 1, left - 1, auth, n)))
            && |Without(all, i)| == |all| - 1
            && (!o.keep ==> Continues(whole, now, PassOf(stanza, f, Without(all, i), i, left - 1, auth, n)))
  {
    hide PassOf, Skipped, AddAll, Without, Continues;
    var o, n := f(|called|), |called|;
    var all, auth := AddAll(list, o.adds), authenticated || o.authenticates;
    if o.keep {
      PassKeep(stanza, f, list, i, left, authenticated, n);
      ContinuesCall(whole, called, list[i], PassOf(stanza, f, list, i, left, authenticated, n),
                    PassOf(stanza, f, all, i + 1, left - 1, auth, n + 1));
    } else {
      PassDrop(stanza, f, list, i, left, authenticated, n);
      ContinuesCall(whole, called, list[i], PassOf(stanza, f, list, i, left, authenticated, n),
                    PassOf(stanza, f, Without(all, i), i, left - 1, auth, n + 1));
    }
  }

  lemma AllEnabled(nodes: seq<Node>)
    requires forall k :: 0 <= k < |nodes| ==> nodes[k].enabled
    ensures EnabledFrom(nodes, 0, |nodes|)
  {
  }

  lemma ItemIn(nodes: seq<Node>, i: nat, item: Node)
    requires NodeAt(nodes, i) == item
    ensures i < |nodes| && nodes[i] == item && Specs(nodes)[i] == item.spec
  {
  }

  lemma AtEnd(nodes: seq<Node>, i: nat)
    requires NodeAt(nodes, i) == null && i <= |nodes|
    ensures i == |nodes|
  {
  }

  lemma NextIn(nodes: seq<Node>, i: nat)
    requires i < |nodes| && Chain(nodes)
    ensures nodes[i].next == NodeAt(nodes, i + 1)
  {
  }

  lemma NotEnabledMeans(nodes: seq<Node>, i: nat, left: nat)
    requires i < |nodes| && EnabledFrom(nodes, i, i + left)
    ensures nodes[i].enabled <==> left > 0
  {
  }

  lemma EnabledLater(nodes: seq<Node>, i: nat, left: nat)
    requires EnabledFrom(nodes, i, i + left) && left == 0
    ensures EnabledFrom(nodes, i + 1, i + 1)
  {
  }

  lemma EnabledMore(nodes: seq<Node>, i: nat, k: nat)
    requires EnabledFrom(nodes, i, k)
    ensures EnabledFrom(nodes, i + 1, k)
  {
  }
}
