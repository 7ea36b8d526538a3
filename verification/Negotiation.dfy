/** Stream negotiation of one client connection against any server: TLS, SASL, binding, session, legacy. */
module Negotiation {
  import opened Common
  import opened NegotiationLog
  import opened Stanzas

  const NS_STREAMS := "http://etherx.jabber.org/streams"
  const NS_TLS := "urn:ietf:params:xml:ns:xmpp-tls"
  const NS_SASL := "urn:ietf:params:xml:ns:xmpp-sasl"
  const NS_BIND := "urn:ietf:params:xml:ns:xmpp-bind"
  const NS_SESSION := "urn:ietf:params:xml:ns:xmpp-session"

  datatype State = Connecting | Connected | Disconnected

  datatype Opener = OpenAuth | OpenSasl

  /** The stanza handlers that negotiation installs. */
  datatype Kind =
    | OnError | OnFeatures | OnFeaturesSasl | OnProceedTls
    | OnSaslResult | OnDigestChallenge | OnDigestRspauth | OnScramChallenge

  datatype Item = Item(kind: Kind, enabled: bool)

  datatype IdKind = IdBind | IdSession | IdLegacy

  datatype Timer =
    | MissingFeatures | MissingFeaturesSasl | MissingBind | MissingSession | MissingLegacy | DisconnectCleanup

  /** How the calls into the TLS and SASL libraries turn out. */
  datatype Env = Env(tlsNew: bool, tlsStart: bool, tlsError: int, response: bool)

  // ----- the handler list

  predicate HasKind(hs: seq<Item>, kind: Kind) {
    exists i :: 0 <= i < |hs| && hs[i].kind == kind
  }

  predicate Distinct(hs: seq<Item>) {
    forall i, j :: 0 <= i < j < |hs| ==> hs[i].kind != hs[j].kind
  }

  /** _handler_add: a handler that is in the list is not added again; a new one is not enabled yet. */
  function Added(hs: seq<Item>, kind: Kind): seq<Item> {
    if HasKind(hs, kind) then hs else hs + [Item(kind, false)]
  }

  /** The list has only grown, by handlers that are not enabled. */
  ghost predicate Grown(before: seq<Item>, after: seq<Item>) {
    |before| <= |after| && after[..|before|] == before
    && forall k :: |before| <= k < |after| ==> !after[k].enabled
  }

  predicate IsSasl(kind: Kind) {
    kind == OnSaslResult || kind == OnDigestChallenge || kind == OnDigestRspauth || kind == OnScramChallenge
  }

  /** What must have happened for a handler to be in the list. */
  ghost predicate Backed(kind: Kind, log: Log, mandatory: bool, connected: bool, secured: bool) {
    && (IsSasl(kind) ==> SaslStarted(log) && (mandatory && connected ==> secured))
    && (kind == OnFeaturesSasl ==> Got(SaslSuccess) in log)
    && (kind == OnProceedTls && connected ==> HasSent(log, StartTls))
  }

  ghost predicate BackedAll(hs: seq<Item>, log: Log, mandatory: bool, connected: bool, secured: bool) {
    forall i :: 0 <= i < |hs| && (hs[i].enabled || connected) ==>
      Backed(hs[i].kind, log, mandatory, connected, secured)
  }

  ghost predicate IdsBacked(ids: set<IdKind>, log: Log) {
    && (IdBind in ids ==> HasSent(log, BindRequest))
    && (IdSession in ids ==> HasSent(log, SessionRequest))
    && (IdLegacy in ids ==> HasSent(log, LegacyAuth))
  }

  /** Every mechanism that may be tried is pending; while the connection is up, these are all. */
  ghost predicate Tracks(sasl: set<Mech>, log: Log, up: bool) {
    forall m: Mech :: (m in sasl ==> Pending(log, m)) && (up && Pending(log, m) ==> m in sasl)
  }

  lemma AddedKinds(hs: seq<Item>, kind: Kind)
    requires Distinct(hs)
    ensures Distinct(Added(hs, kind)) && Grown(hs, Added(hs, kind))
    ensures forall k :: HasKind(Added(hs, kind), k) <==> HasKind(hs, k) || k == kind
  {
    var now := Added(hs, kind);
    if !HasKind(hs, kind) {
      assert now[|hs|].kind == kind;
      forall k | HasKind(hs, k) ensures HasKind(now, k) {
        var i :| 0 <= i < |hs| && hs[i].kind == k;
        assert now[i].kind == k;
      }
    }
  }

  lemma AddedBacked(hs: seq<Item>, kind: Kind, log: Log, mandatory: bool, connected: bool, secured: bool)
    requires BackedAll(hs, log, mandatory, connected, secured)
    requires connected ==> Backed(kind, log, mandatory, connected, secured)
    ensures BackedAll(Added(hs, kind), log, mandatory, connected, secured)
  {
  }

  lemma BackedGrows(hs: seq<Item>, log: Log, e: Entry, mandatory: bool, connected: bool, secured: bool)
    requires BackedAll(hs, log, mandatory, connected, secured)
    ensures BackedAll(hs, log + [e], mandatory, connected, secured)
  {
  }

  /** A handler keeps its backing when TLS comes up or the connection goes down. */
  lemma BackedStays(hs: seq<Item>, log: Log, mandatory: bool, c: bool, s: bool, c': bool, s': bool)
    requires BackedAll(hs, log, mandatory, c, s) && (c' ==> c) && (c' && s ==> s')
    ensures BackedAll(hs, log, mandatory, c', s')
  {
  }

  /** What is no offer and no start of a mechanism leaves all as they are. */
  lemma TracksGrows(sasl: set<Mech>, log: Log, e: Entry, up: bool)
    requires Tracks(sasl, log, up) && !(e.Got? && e.reply.Features?) && !(e.Sent? && e.out.SaslAuth?)
    ensures Tracks(sasl, log + [e], up)
  {
    assert (log + [e])[..|log|] == log;
  }

  lemma TracksLess(sasl: set<Mech>, sasl': set<Mech>, log: Log, up: bool)
    requires Tracks(sasl, log, up) && sasl' <= sasl
    ensures Tracks(sasl', log, false)
  {
  }

  lemma TracksOffer(sasl: set<Mech>, log: Log, offered: set<Mech>, up: bool)
    requires Tracks(sasl, log, up)
    ensures Tracks(sasl + offered, log + [Got(Features(offered))], up)
  {
    assert (log + [Got(Features(offered))])[..|log|] == log;
  }

  lemma TracksStart(sasl: set<Mech>, log: Log, m: Mech, secured: bool, up: bool)
    requires Tracks(sasl, log, up)
    ensures Tracks(sasl - {m}, log + [Sent(SaslAuth(m), secured)], up)
  {
    assert (log + [Sent(SaslAuth(m), secured)])[..|log|] == log;
  }

  lemma IdsBackedGrows(ids: set<IdKind>, log: Log, e: Entry)
    requires IdsBacked(ids, log)
    ensures IdsBacked(ids, log + [e])
  {
  }

  /** The mechanism that is tried next. */
  function Choice(hasNode: bool, sasl: set<Mech>): (r: Option<Mech>)
    ensures r.Some? ==> r.value in sasl && Usable(hasNode, r.value) && forall a :: a in sasl ==> !Stronger(a, r.value)
    ensures r.None? ==> forall m :: m in sasl ==> !Usable(hasNode, m)
  {
    if !hasNode then if Anonymous in sasl then Some(Anonymous) else None
    else if ScramSha1 in sasl then Some(ScramSha1)
    else if DigestMd5 in sasl then Some(DigestMd5)
    else if Plain in sasl then Some(Plain)
    else None
  }

  /** The best mechanism that is left is started; legacy authentication and giving up come after all of them. */
  ghost predicate Rightful(hasNode: bool, sasl: set<Mech>, out: Out) {
    match out
    case SaslAuth(m) => m in sasl && Usable(hasNode, m) && forall a :: a in sasl ==> !Stronger(a, m)
    case LegacyAuth => hasNode && forall m :: m in sasl ==> m == Anonymous
    case StreamClose => forall m :: m in sasl ==> !Usable(hasNode, m)
    case _ => out == StartTls
  }

  function HandlerOf(m: Mech): (k: Kind)
    ensures IsSasl(k)
  {
    match m
    case Anonymous => OnSaslResult
    case ScramSha1 => OnScramChallenge
    case DigestMd5 => OnDigestChallenge
    case Plain => OnSaslResult
  }

  /** xmpp_conn_t, the fields that negotiation uses. */
  class Connection {
    const hasNode: bool
    const hasResource: bool
    const mandatory: bool
    const disabled: bool
    const legacySsl: bool
    var state: State
    var secured: bool
    var tls: bool
    var tlsFailed: bool
    var tlsSupport: bool
    var sasl: set<Mech>
    var bindRequired: bool
    var sessionRequired: bool
    var authenticated: bool
    var resetParser: bool
    var openHandler: Opener
    var handlers: seq<Item>
    var ids: set<IdKind>
    var timers: set<Timer>
    /** The parser waits for the opening tag of a stream. */
    var awaiting: bool
    ghost var log: Log
    ghost var running: Option<Kind>
    /** The handlers that were called. */
    ghost var calls: seq<Kind>

    constructor (hasNode: bool, hasResource: bool, mandatory: bool, disabled: bool, legacySsl: bool)
      ensures this.mandatory == mandatory && this.disabled == disabled && this.legacySsl == legacySsl && !tlsSupport
      ensures Inv() && running.None? && state.Connecting? && log == []
    {
      this.hasNode, this.hasResource := hasNode, hasResource;
      this.mandatory, this.disabled, this.legacySsl := mandatory, disabled, legacySsl;
      state, secured, tls, tlsFailed, tlsSupport, sasl := Connecting, false, false, false, false, {};
      bindRequired, sessionRequired, authenticated := false, false, false;
      resetParser, openHandler, handlers, ids, timers, awaiting := false, OpenAuth, [], {}, {}, true;
      log, running, calls := [], None, [];
    }

    /** xmpp_conn_is_secured */
    predicate IsSecured()
      reads this
    {
      secured && !tlsFailed && tls
    }

    ghost predicate Expecting(kind: Kind)
      reads this
    {
      HasKind(handlers, kind) && running != Some(kind)
    }

    /** STARTTLS may still be sent. */
    ghost predicate Chance()
      reads this
    {
      !secured && (tlsSupport || Expecting(OnFeatures) || (awaiting && openHandler == OpenAuth))
    }

    ghost predicate TlsOk()
      reads this
    {
      && (Chance() ==> !HasSent(log, StartTls))
      && (tlsSupport ==> !secured && running == Some(OnFeatures))
      && (Expecting(OnProceedTls) ==> !secured)
      && (!secured && openHandler == OpenAuth ==> !resetParser && (awaiting ==> !HasKind(handlers, OnFeatures)))
    }

    ghost predicate Inv()
      reads this
    {
      && Safe(hasNode, mandatory, log)
      && TlsOk()
      && Distinct(handlers)
      && BackedAll(handlers, log, mandatory, state.Connected?, IsSecured())
      && (state.Connected? ==> IdsBacked(ids, log))
      && (openHandler == OpenSasl ==> Got(SaslSuccess) in log)
      && Tracks(sasl, log, !state.Disconnected?)
      && (authenticated ==> Authenticated in log)
      && (TlsUp in log ==> secured) && (state.Connected? && IsSecured() ==> TlsUp in log)
      && (running.Some? ==> HasKind(handlers, running.value))
      && (state.Connecting? ==> !secured && handlers == [] && ids == {} && log == [])
    }

    /** One more entry keeps the invariant, if it is allowed and the flags agree. */
    ghost method Record(e: Entry)
      requires Inv() && Allowed(hasNode, mandatory, log, e) && e != TlsUp && !state.Connecting?
      requires !(e.Got? && e.reply.Features?) && (e.Sent? ==> !e.out.SaslAuth? && (e.out == StartTls ==> !Chance()))
      modifies `log
      ensures Inv() && log == old(log) + [e]
    {
      hide Safe, Allowed, BackedAll, IdsBacked, Tracks, HasKind, Distinct, HasSent;
      SafeGrows(hasNode, mandatory, log, e);
      HadSentGrows(log, e, StartTls);
      BackedGrows(handlers, log, e, mandatory, state.Connected?, IsSecured());
      TracksGrows(sasl, log, e, !state.Disconnected?);
      if state.Connected? {
        IdsBackedGrows(ids, log, e);
      }
      log := log + [e];
    }

    /** xmpp_send and xmpp_send_raw_string: nothing is queued unless connected. */
    method Queue(out: Out)
      requires Inv() && (state.Connected? ==> MaySend(hasNode, mandatory, log, out, IsSecured()))
      requires (out == StartTls ==> !Chance()) && !out.SaslAuth?
      modifies `log
      ensures Inv() && log == Queued(old(log), out)
    {
      hide MaySend, Safe, TlsOk, Tracks, BackedAll, IdsBacked, Distinct;
      if state.Connected? {
        Record(Sent(out, IsSecured()));
      }
    }

    ghost function Queued(log: Log, out: Out): Log
      reads this
    {
      if state.Connected? then log + [Sent(out, IsSecured())] else log
    }

    method AddHandler(kind: Kind)
      requires Inv() && kind != OnFeatures && !state.Connecting?
      requires state.Connected? ==> Backed(kind, log, mandatory, true, IsSecured())
      requires kind == OnProceedTls ==> !secured
      modifies `handlers
      ensures Inv() && handlers == Added(old(handlers), kind) && Grown(old(handlers), handlers)
    {
      hide Safe, Backed, BackedAll, IdsBacked, Tracks, HasKind, Distinct, HasSent, Added, Grown;
      AddedKinds(handlers, kind);
      AddedBacked(handlers, kind, log, mandatory, state.Connected?, IsSecured());
      handlers := Added(handlers, kind);
    }

    /** conn_disconnect */
    method ConnDisconnect()
      requires Inv()
      modifies `state, `tls
      ensures Inv() && state.Disconnected?
    {
      hide Safe, Backed, BackedAll, IdsBacked, Tracks, HasKind, Distinct, HasSent;
      BackedStays(handlers, log, mandatory, state.Connected?, IsSecured(), false, false);
      TracksLess(sasl, sasl, log, !state.Disconnected?);
      state := Disconnected;
      tls := false;
    }

    /** xmpp_disconnect: the stream is closed, and the connection later. */
    method Disconnect()
      requires Inv()
      modifies `log, `timers
      ensures Inv() && log == Queued(old(log), StreamClose)
    {
      hide Inv;
      if state.Disconnected? {
        return;
      }
      Queue(StreamClose);
      AddTimer(DisconnectCleanup);
    }

    method AddTimer(timer: Timer)
      requires Inv()
      modifies `timers
      ensures Inv() && timers == old(timers) + {timer}
    {
      hide Safe, BackedAll, IdsBacked, Tracks, HasKind, Distinct, HasSent;
      timers := timers + {timer};
    }

    method DeleteTimer(timer: Timer)
      requires Inv()
      modifies `timers
      ensures Inv() && timers == old(timers) - {timer}
    {
      hide Safe, BackedAll, IdsBacked, Tracks, HasKind, Distinct, HasSent;
      timers := timers - {timer};
    }

    /** conn_prepare_reset */
    method PrepareReset(opener: Opener)
      requires Inv() && (if opener == OpenSasl then Got(SaslSuccess) in log else secured)
      modifies `resetParser, `openHandler
      ensures Inv() && resetParser && openHandler == opener
    {
      hide Safe, BackedAll, IdsBacked, Tracks, HasKind, Distinct, HasSent;
      resetParser := true;
      openHandler := opener;
    }

    /** conn_tls_start */
    method TlsStart(env: Env) returns (ok: bool)
      requires Inv() && !secured && !tlsSupport && !Expecting(OnProceedTls) && !state.Connecting?
      requires state.Connected? ==> log == [] || HasSent(log, StartTls)
      modifies `tls, `secured, `tlsFailed, `resetParser, `openHandler, `log
      ensures Inv()
      ensures secured == (!disabled && env.tlsNew && env.tlsStart)
      ensures ok <==> !disabled && env.tlsNew && (env.tlsStart || env.tlsError == 0)
      ensures ok && !secured <==> !disabled && env.tlsNew && !env.tlsStart && env.tlsError == 0
      ensures secured ==> resetParser && openHandler == OpenAuth
      ensures log == if secured && state.Connected? then old(log) + [TlsUp] else old(log)
    {
      hide Safe, BackedAll, IdsBacked, Tracks, HasKind, Distinct, HasSent;
      if disabled {
        tls, ok := false, false;
      } else {
        tls := env.tlsNew;
        ok := env.tlsNew;
      }
      if tls {
        if env.tlsStart {
          Secure();
          PrepareReset(OpenAuth);
        } else {
          ok := env.tlsError == 0;
          tls, tlsFailed := false, true;
        }
      }
    }

    /** TLS is up. */
    method Secure()
      requires Inv() && !secured && tls && !tlsSupport && !Expecting(OnProceedTls) && !state.Connecting?
      requires state.Connected? ==> log == [] || HasSent(log, StartTls)
      modifies `secured, `log
      ensures Inv() && secured && log == if state.Connected? then old(log) + [TlsUp] else old(log)
    {
      hide Safe, Allowed, BackedAll, IdsBacked, Tracks, HasKind, Distinct, HasSent;
      BackedStays(handlers, log, mandatory, state.Connected?, false, state.Connected?, !tlsFailed);
      if state.Connected? {
        TlsAllowed(hasNode, mandatory, log);
        SafeGrows(hasNode, mandatory, log, TlsUp);
        HadSentGrows(log, TlsUp, StartTls);
        BackedGrows(handlers, log, TlsUp, mandatory, true, !tlsFailed);
        TracksGrows(sasl, log, TlsUp, true);
        IdsBackedGrows(ids, log, TlsUp);
        log := log + [TlsUp];
      }
      secured := true;
    }

    /** A request with an id: the handler of the reply, its timer, and the request. */
    method Request(id: IdKind, timer: Timer, out: Out)
      requires Inv() && (state.Connected? ==> MaySend(hasNode, mandatory, log, out, IsSecured())) && !state.Connecting?
      requires out == match id
                      case IdBind => BindRequest
                      case IdSession => SessionRequest
                      case IdLegacy => LegacyAuth
      modifies `ids, `timers, `log
      ensures Inv() && id in ids && timer in timers && log == Queued(old(log), out)
    {
      hide Safe, MaySend, BackedAll, Tracks, HasKind, Distinct, HasSent;
      timers := timers + {timer};
      Queue(out);
      if state.Connected? {
        IdsNow(ids, log[..|log| - 1], Sent(out, IsSecured()), id);
        assert log == log[..|log| - 1] + [Sent(out, IsSecured())];
      }
      ids := ids + {id};
    }

    /** The branch of _auth for STARTTLS. */
    method TryTls()
      requires Inv() && tlsSupport && !state.Connecting?
      modifies `handlers, `log, `tlsSupport
      ensures Inv() && !tlsSupport && log == Queued(old(log), StartTls)
      ensures handlers == Added(old(handlers), OnProceedTls) && Grown(old(handlers), handlers)
    {
      hide Safe, Backed, BackedAll, IdsBacked, Tracks, HasKind, Distinct, HasSent, Added, Grown;
      AddedKinds(handlers, OnProceedTls);
      handlers := Added(handlers, OnProceedTls);
      if state.Connected? {
        var e := Sent(StartTls, IsSecured());
        SafeGrows(hasNode, mandatory, log, e);
        HadSentGrows(log, e, StartTls);
        BackedGrows(old(handlers), log, e, mandatory, true, IsSecured());
        ProceedBacked(log + [e], mandatory, IsSecured());
        AddedBacked(old(handlers), OnProceedTls, log + [e], mandatory, true, IsSecured());
        TracksGrows(sasl, log, e, !state.Disconnected?);
        IdsBackedGrows(ids, log, e);
        log := log + [e];
      } else {
        AddedBacked(old(handlers), OnProceedTls, log, mandatory, false, IsSecured());
      }
      tlsSupport := false;
    }

    /** The branches of _auth for a SASL mechanism. */
    method TryMech(m: Mech)
      requires Inv() && m in sasl && Usable(hasNode, m) && (forall a :: a in sasl ==> !Stronger(a, m)) && (mandatory ==> IsSecured()) && !tlsSupport && !state.Connecting?
      modifies `handlers, `log, `sasl
      ensures Inv() && log == Queued(old(log), SaslAuth(m)) && sasl == old(sasl) - {m}
      ensures handlers == Added(old(handlers), if m == ScramSha1 then OnScramChallenge
                                               else if m == DigestMd5 then OnDigestChallenge
                                               else OnSaslResult)
      ensures Grown(old(handlers), handlers)
    {
      hide Safe, Backed, BackedAll, IdsBacked, Tracks, HasKind, Distinct, HasSent, Added, Grown, SaslStarted;
      AddedKinds(handlers, HandlerOf(m));
      handlers := Added(handlers, HandlerOf(m));
      if state.Connected? {
        MechAllowed(hasNode, mandatory, log, m, IsSecured(), sasl);
        var e := Sent(SaslAuth(m), IsSecured());
        SafeGrows(hasNode, mandatory, log, e);
        HadSentGrows(log, e, StartTls);
        BackedGrows(old(handlers), log, e, mandatory, true, IsSecured());
        SaslBacked(HandlerOf(m), log + [e], mandatory, IsSecured());
        AddedBacked(old(handlers), HandlerOf(m), log + [e], mandatory, true, IsSecured());
        TracksStart(sasl, log, m, IsSecured(), true);
        IdsBackedGrows(ids, log, e);
        log := log + [e];
      } else {
        AddedBacked(old(handlers), HandlerOf(m), log, mandatory, false, IsSecured());
        TracksLess(sasl, sasl - {m}, log, false);
      }
      sasl := sasl - {m};
    }

    /** What an attempt to authenticate queues; nothing if TLS is mandatory and missing. */
    ghost function Attempt(tlsOffered: bool, sasl: set<Mech>, log: Log): Log
      reads this
    {
      if tlsOffered then Queued(log, StartTls)
      else if mandatory && !IsSecured() then log
      else match Choice(hasNode, sasl)
        case Some(m) => Queued(log, SaslAuth(m))
        case None => Queued(log, if hasNode && hasResource then LegacyAuth else StreamClose)
    }

    /** _auth: STARTTLS first, then the best mechanism not tried yet, then legacy authentication. */
    method Auth(env: Env)
      requires Inv() && !state.Connecting?
      modifies `tlsSupport, `handlers, `log, `state, `tls, `sasl, `timers, `ids
      ensures Inv() && !tlsSupport && !state.Connecting? && Grown(old(handlers), handlers)
      ensures log == old(Attempt(tlsSupport && env.tlsNew, sasl, log))
      ensures |log| > |old(log)| ==> log[|log| - 1].Sent? && Rightful(hasNode, old(sasl), log[|log| - 1].out)
      ensures !(old(tlsSupport) && env.tlsNew) && mandatory && !old(IsSecured()) ==> state.Disconnected?
      ensures sasl <= old(sasl)
      decreases tlsSupport
    {
      hide Safe, Backed, BackedAll, IdsBacked, Tracks, HasKind, Distinct, HasSent, Added, SaslStarted, TlsOk;
      GrownBySame(handlers);
      if tlsSupport {
        if !env.tlsNew {
          StopTls();
          Auth(env);
          return;
        }
        TryTls();
        return;
      }
      if mandatory && !IsSecured() {
        ConnDisconnect();
        return;
      }
      var choice := Choice(hasNode, sasl);
      if choice.Some? {
        TryMech(choice.value);
      } else if !hasNode {
        Disconnect();
      } else if !hasResource {
        Disconnect();
      } else {
        if state.Connected? {
          LegacyAllowed(mandatory, log, IsSecured(), sasl);
        }
        Request(IdLegacy, MissingLegacy, LegacyAuth);
      }
    }

    /** TLS could not be set up, so it is not there. */
    method StopTls()
      requires Inv()
      modifies `tlsSupport
      ensures Inv() && !tlsSupport
    {
      hide Safe, Backed, BackedAll, IdsBacked, Tracks, HasKind, Distinct, HasSent, Added;
      tlsSupport := false;
    }

    /** The mechanisms that a features stanza offers. */
    method OfferedMechs(stanza: Stanza) returns (offered: set<Mech>)
      ensures offered == Offered(stanza)
    {
      offered := {};
      var child := ChildByName(stanza.children, "mechanisms");
      if child.Some? && child.value.ns == NS_SASL {
        var mechs := child.value.children;
        for k := 0 to |mechs|
          invariant forall m :: m in offered <==> exists i :: 0 <= i < k && NamesMech(mechs[i], m)
        {
          if mechs[k].name == "mechanism" {
            if SameIgnoringCase(mechs[k].text, "PLAIN") {
              offered := offered + {Plain};
            } else if SameIgnoringCase(mechs[k].text, "DIGEST-MD5") {
              offered := offered + {DigestMd5};
            } else if SameIgnoringCase(mechs[k].text, "SCRAM-SHA-1") {
              offered := offered + {ScramSha1};
            } else if SameIgnoringCase(mechs[k].text, "ANONYMOUS") {
              offered := offered + {Anonymous};
            }
          }
        }
      }
      assert forall m :: m in offered <==> HasChild(stanza, "mechanisms", NS_SASL) && Offers(stanza, m);
      EveryMech(offered, Offered(stanza));
    }

    /** _handle_features */
    method HandleFeatures(stanza: Stanza, env: Env) returns (keep: bool)
      requires Inv() && running == Some(OnFeatures) && !tlsSupport && !state.Connecting?
      requires !secured ==> !HasSent(log, StartTls)
      modifies `tlsSupport, `handlers, `log, `state, `tls, `sasl, `timers, `ids
      ensures Inv() && !tlsSupport && !keep && !state.Connecting? && Grown(old(handlers), handlers)
      ensures log == old(Attempt(!secured && !disabled && HasChild(stanza, "starttls", NS_TLS) && env.tlsNew,
                                 sasl + Offered(stanza), log + [Got(Features(Offered(stanza)))]))
    {
      hide Safe, BackedAll, IdsBacked, Tracks, HasKind, Distinct, HasSent, Added, SaslStarted, TlsOk, Grown,
           Choice, Offered;
      DeleteTimer(MissingFeatures);
      if !secured {
        if !disabled {
          if HasChild(stanza, "starttls", NS_TLS) {
            OfferTls();
          }
        } else {
          tlsSupport := false;
        }
      }
      var offered := OfferedMechs(stanza);
      OfferMechs(offered);
      Auth(env);
      keep := false;
    }

    method OfferMechs(offered: set<Mech>)
      requires Inv() && !state.Connecting?
      modifies `sasl, `log
      ensures Inv() && sasl == old(sasl) + offered && log == old(log) + [Got(Features(offered))]
    {
      hide Safe, BackedAll, IdsBacked, Tracks, HasKind, Distinct, HasSent;
      ghost var e := Got(Features(offered));
      SafeGrows(hasNode, mandatory, log, e);
      HadSentGrows(log, e, StartTls);
      BackedGrows(handlers, log, e, mandatory, state.Connected?, IsSecured());
      TracksOffer(sasl, log, offered, !state.Disconnected?);
      if state.Connected? {
        IdsBackedGrows(ids, log, e);
      }
      sasl := sasl + offered;
      log := log + [e];
    }

    /** The server offers STARTTLS while the connection is in the clear. */
    method OfferTls()
      requires Inv() && running == Some(OnFeatures) && !secured && !HasSent(log, StartTls)
      modifies `tlsSupport
      ensures Inv() && tlsSupport
    {
      hide Safe, BackedAll, IdsBacked, Tracks, HasKind, Distinct, HasSent;
      tlsSupport := true;
    }

    /** _handle_proceedtls_default */
    method HandleProceed(stanza: Stanza, env: Env) returns (keep: bool)
      requires Inv() && running == Some(OnProceedTls) && !secured && !tlsSupport && !state.Connecting?
      requires state.Connected? ==> HasSent(log, StartTls)
      modifies `tls, `secured, `tlsFailed, `resetParser, `openHandler, `log, `timers
      ensures Inv() && !keep
      ensures stanza.name != "proceed" ==> log == old(log) && !secured
      ensures stanza.name == "proceed" && secured && state.Connected? ==>
                log == old(log) + [TlsUp, Sent(StreamOpen, IsSecured())]
      ensures stanza.name == "proceed" ==> secured == (!disabled && env.tlsNew && env.tlsStart)
    {
      hide Inv;
      if stanza.name == "proceed" {
        var ok := TlsStart(env);
        if ok {
          Queue(StreamOpen);
        } else {
          Disconnect();
        }
      }
      keep := false;
    }

    /** A SASL handler runs: its mechanism was started, and with mandatory TLS in the secured stream. */
    ghost predicate SaslRuns()
      reads this
    {
      SaslStarted(log) && (mandatory && state.Connected? ==> IsSecured())
    }

    /** _handle_sasl_result */
    method HandleSaslResult(stanza: Stanza, env: Env) returns (keep: bool)
      requires Inv() && SaslRuns() && !tlsSupport && !state.Connecting?
      modifies `tlsSupport, `handlers, `log, `state, `tls, `sasl, `timers, `ids, `resetParser, `openHandler
      ensures Inv() && !tlsSupport && !keep && !state.Connecting? && Grown(old(handlers), handlers)
      ensures stanza.name == "failure" ==> log == old(Attempt(false, sasl, log)) && resetParser == old(resetParser)
      ensures stanza.name == "success" ==> log == old(Queued(log + [Got(SaslSuccess)], StreamOpen))
                                           && resetParser && openHandler == OpenSasl
      ensures stanza.name != "failure" && stanza.name != "success" ==> log == old(Queued(log, StreamClose))
    {
      hide Inv, Attempt, SaslStarted, Grown;
      GrownBySame(handlers);
      if stanza.name == "failure" {
        Auth(env);
      } else if stanza.name == "success" {
        Record(Got(SaslSuccess));
        PrepareReset(OpenSasl);
        Queue(StreamOpen);
      } else {
        Disconnect();
      }
      keep := false;
    }

    /** _handle_digestmd5_challenge */
    method HandleDigestChallenge(stanza: Stanza, env: Env) returns (keep: bool)
      requires Inv() && SaslRuns() && !tlsSupport && !state.Connecting?
      modifies `tlsSupport, `handlers, `log, `state, `tls, `sasl, `timers, `ids, `resetParser, `openHandler
      ensures Inv() && !tlsSupport && !keep && !state.Connecting? && Grown(old(handlers), handlers)
      ensures stanza.name == "challenge" ==> log == old(Queued(log, if env.response then SaslResponse else StreamClose))
      ensures stanza.name == "challenge" && env.response ==> handlers == Added(old(handlers), OnDigestRspauth)
    {
      hide Inv, Attempt, SaslStarted, Grown, Added;
      if stanza.name == "challenge" {
        GrownBySame(handlers);
        if !env.response {
          Disconnect();
          return false;
        }
        if state.Connected? {
          SaslBacked(OnDigestRspauth, log, mandatory, IsSecured());
        }
        AddHandler(OnDigestRspauth);
        Queue(SaslResponse);
        keep := false;
      } else {
        keep := HandleSaslResult(stanza, env);
      }
    }

    /** _handle_digestmd5_rspauth */
    method HandleDigestRspauth(stanza: Stanza, env: Env) returns (keep: bool)
      requires Inv() && SaslRuns() && !tlsSupport && !state.Connecting?
      modifies `tlsSupport, `handlers, `log, `state, `tls, `sasl, `timers, `ids, `resetParser, `openHandler
      ensures Inv() && !tlsSupport && !state.Connecting? && Grown(old(handlers), handlers)
      ensures keep <==> stanza.name == "challenge"
      ensures keep ==> log == old(Queued(log, SaslResponse))
    {
      hide Inv, Attempt, SaslStarted, Grown;
      if stanza.name == "challenge" {
        GrownBySame(handlers);
        Queue(SaslResponse);
        keep := true;
      } else {
        keep := HandleSaslResult(stanza, env);
      }
    }

    /** _handle_scram_sha1_challenge */
    method HandleScramChallenge(stanza: Stanza, env: Env) returns (keep: bool)
      requires Inv() && SaslRuns() && !tlsSupport && !state.Connecting?
      modifies `tlsSupport, `handlers, `log, `state, `tls, `sasl, `timers, `ids, `resetParser, `openHandler
      ensures Inv() && !tlsSupport && !state.Connecting? && Grown(old(handlers), handlers)
      ensures keep <==> stanza.name == "challenge" && env.response
      ensures stanza.name == "challenge" ==> log == old(Queued(log, if env.response then SaslResponse else StreamClose))
    {
      hide Inv, Attempt, SaslStarted, Grown;
      if stanza.name == "challenge" {
        GrownBySame(handlers);
        if !env.response {
          Disconnect();
          return false;
        }
        Queue(SaslResponse);
        keep := true;
      } else {
        keep := HandleSaslResult(stanza, env);
      }
    }

    /** _handle_features_sasl */
    method HandleFeaturesSasl(stanza: Stanza) returns (keep: bool)
      requires Inv() && Got(SaslSuccess) in log && !state.Connecting?
      modifies `timers, `bindRequired, `sessionRequired, `ids, `log
      ensures Inv() && !keep
      ensures bindRequired == (old(bindRequired) || HasChild(stanza, "bind", "urn:ietf:params:xml:ns:xmpp-bind"))
      ensures sessionRequired == (old(sessionRequired) || HasChild(stanza, "session", "urn:ietf:params:xml:ns:xmpp-session"))
      ensures log == Queued(old(log), if bindRequired then BindRequest else StreamClose)
    {
      hide Safe, TlsOk, BackedAll, IdsBacked, Tracks, HasKind, Distinct;
      DeleteTimer(MissingFeaturesSasl);
      NoteRequired(stanza);
      if bindRequired {
        Request(IdBind, MissingBind, BindRequest);
      } else {
        Disconnect();
      }
      keep := false;
    }

    method NoteRequired(stanza: Stanza)
      requires Inv()
      modifies `bindRequired, `sessionRequired
      ensures Inv()
      ensures bindRequired == (old(bindRequired) || HasChild(stanza, "bind", "urn:ietf:params:xml:ns:xmpp-bind"))
      ensures sessionRequired == (old(sessionRequired) || HasChild(stanza, "session", "urn:ietf:params:xml:ns:xmpp-session"))
    {
      hide Safe, BackedAll, IdsBacked, Tracks, HasKind, Distinct;
      if HasChild(stanza, "bind", NS_BIND) {
        bindRequired := true;
      }
      if HasChild(stanza, "session", NS_SESSION) {
        sessionRequired := true;
      }
    }

    /** authenticated is set, on a result that has just been noted. */
    method Succeed()
      requires Inv() && EndsInResult(log) && !state.Connecting?
      modifies `authenticated, `log
      ensures Inv() && authenticated && log == old(log) + [Authenticated]
    {
      hide Safe, BackedAll, IdsBacked, Tracks, HasKind, Distinct, HasSent;
      Record(Authenticated);
      authenticated := true;
    }

    /** _handle_bind */
    method HandleBind(stanza: Stanza)
      requires Inv() && HasSent(log, BindRequest) && !state.Connecting?
      modifies `timers, `log, `ids, `authenticated
      ensures Inv()
      ensures log == if stanza.kind != Some("result") then Queued(old(log), StreamClose)
                     else if sessionRequired then Queued(old(log) + [Got(BindResult)], SessionRequest)
                     else old(log) + [Got(BindResult), Authenticated]
      ensures authenticated == (old(authenticated) || (stanza.kind == Some("result") && !sessionRequired))
    {
      hide Inv, HasSent;
      DeleteTimer(MissingBind);
      if stanza.kind == Some("error") {
        Disconnect();
      } else if stanza.kind == Some("result") {
        Record(Got(BindResult));
        if sessionRequired {
          Request(IdSession, MissingSession, SessionRequest);
        } else {
          Succeed();
        }
      } else {
        Disconnect();
      }
    }

    /** _handle_session */
    method HandleSession(stanza: Stanza)
      requires Inv() && HasSent(log, SessionRequest) && !state.Connecting?
      modifies `timers, `log, `authenticated
      ensures Inv()
      ensures log == if stanza.kind == Some("result") then old(log) + [Got(SessionResult), Authenticated]
                     else Queued(old(log), StreamClose)
      ensures authenticated == (old(authenticated) || stanza.kind == Some("result"))
    {
      hide Inv, HasSent;
      DeleteTimer(MissingSession);
      if stanza.kind == Some("error") {
        Disconnect();
      } else if stanza.kind == Some("result") {
        Record(Got(SessionResult));
        Succeed();
      } else {
        Disconnect();
      }
    }

    /** _handle_legacy */
    method HandleLegacy(stanza: Stanza)
      requires Inv() && HasSent(log, LegacyAuth) && !state.Connecting?
      modifies `timers, `log, `authenticated
      ensures Inv()
      ensures log == if stanza.kind == Some("result") && stanza.name == "iq" then
                       old(log) + [Got(LegacyResult), Authenticated]
                     else Queued(old(log), StreamClose)
      ensures authenticated == (old(authenticated) || (stanza.kind == Some("result") && stanza.name == "iq"))
    {
      hide Inv, HasSent;
      DeleteTimer(MissingLegacy);
      if stanza.kind.None? || stanza.name != "iq" {
        Disconnect();
      } else if stanza.kind == Some("error") {
        Disconnect();
      } else if stanza.kind == Some("result") {
        Record(Got(LegacyResult));
        Succeed();
      } else {
        Disconnect();
      }
    }

    // ----- dispatch

    /** What a handler may rely on when it runs. */
    ghost predicate MayRun(kind: Kind)
      reads this
    {
      && Inv() && running == Some(kind) && !tlsSupport && !state.Connecting?
      && (IsSasl(kind) ==> SaslRuns())
      && (kind == OnFeaturesSasl ==> Got(SaslSuccess) in log)
      && (kind == OnFeatures && !secured ==> !HasSent(log, StartTls))
      && (kind == OnProceedTls ==> !secured && (state.Connected? ==> HasSent(log, StartTls)))
    }

    ghost method NoteCall(kind: Kind)
      requires MayRun(kind)
      modifies `calls
      ensures MayRun(kind) && calls == old(calls) + [kind]
    {
      hide Safe, BackedAll, IdsBacked, Tracks, HasKind, Distinct, HasSent, SaslStarted;
      calls := calls + [kind];
    }

    method Call(kind: Kind, stanza: Stanza, env: Env) returns (keep: bool)
      requires MayRun(kind)
      modifies this
      ensures Inv() && running == Some(kind) && !tlsSupport && !state.Connecting? && awaiting == old(awaiting)
      ensures calls == old(calls) + [kind]
      ensures Grown(old(handlers), handlers) && (keep ==> kind != OnFeatures && kind != OnProceedTls)
    {
      hide Inv, Attempt, SaslStarted, Grown, Added, HasSent, Offered, Queued, HasChild, SaslRuns;
      GrownBySame(handlers);
      NoteCall(kind);
      match kind
      case OnError => keep := true;
      case OnFeatures => keep := HandleFeatures(stanza, env);
      case OnFeaturesSasl => keep := HandleFeaturesSasl(stanza);
      case OnProceedTls => keep := HandleProceed(stanza, env);
      case OnSaslResult => keep := HandleSaslResult(stanza, env);
      case OnDigestChallenge => keep := HandleDigestChallenge(stanza, env);
      case OnDigestRspauth => keep := HandleDigestRspauth(stanza, env);
      case OnScramChallenge => keep := HandleScramChallenge(stanza, env);
    }

    /** An enabled handler is called, and removed unless it asks to be kept. */
    method FireItem(i: nat, stanza: Stanza, env: Env) returns (removed: bool)
      requires Inv() && running.None? && !tlsSupport && !state.Connecting? && i < |handlers| && handlers[i].enabled
      modifies this
      ensures Inv() && running.None? && !tlsSupport && !state.Connecting? && awaiting == old(awaiting)
      ensures Grown(if removed then Without(old(handlers), i) else old(handlers), handlers)
      ensures calls == old(calls) + [old(handlers)[i].kind]
    {
      hide Safe, BackedAll, IdsBacked, Tracks, HasKind, Distinct, HasSent, Added, SaslStarted, Grown, Without;
      var kind := handlers[i].kind;
      ItemBacked(handlers, i, log, mandatory, state.Connected?, IsSecured());
      running := Some(kind);
      var keep := Call(kind, stanza, env);
      if !keep {
        GrownAt(old(handlers), handlers, i);
        RemovedKinds(handlers, i);
        RemovedBacked(handlers, i, log, mandatory, state.Connected?, IsSecured());
        handlers := Without(handlers, i);
      }
      running := None;
      removed := !keep;
    }

    /** The id handlers of a stanza: each system handler is called once. */
    method FireIds(stanza: Stanza)
      requires Inv() && running.None? && !tlsSupport && state.Connected?
      modifies `timers, `log, `ids, `authenticated
      ensures Inv()
      ensures stanza.id.None? ==> log == old(log) && authenticated == old(authenticated)
    {
      hide Safe, TlsOk, BackedAll, Tracks, HasKind, Distinct, HasSent;
      if stanza.id == Some("_xmpp_bind1") && IdBind in ids {
        HandleBind(stanza);
        DropId(IdBind);
      } else if stanza.id == Some("_xmpp_session1") && IdSession in ids {
        HandleSession(stanza);
        DropId(IdSession);
      } else if stanza.id == Some("_xmpp_auth1") && IdLegacy in ids {
        HandleLegacy(stanza);
        DropId(IdLegacy);
      }
    }

    method DropId(id: IdKind)
      requires Inv()
      modifies `ids
      ensures Inv() && ids == old(ids) - {id}
    {
      hide Safe, BackedAll, Tracks, HasKind, Distinct, HasSent;
      ids := ids - {id};
    }

    /** All handlers in the list are enabled before the pass. */
    method EnableAll()
      requires Inv() && state.Connected?
      modifies `handlers
      ensures Inv() && |handlers| == |old(handlers)|
      ensures forall k :: 0 <= k < |handlers| ==> handlers[k] == Item(old(handlers)[k].kind, true)
    {
      hide Safe, BackedAll, IdsBacked, Tracks, HasKind, Distinct, HasSent;
      EnabledKinds(handlers);
      EnabledBacked(handlers, log, mandatory, IsSecured());
      handlers := EnabledItems(handlers);
    }

    /** handler_fire_stanza */
    method FireStanza(stanza: Stanza, env: Env)
      requires Inv() && running.None? && !tlsSupport && state.Connected?
      modifies this
      ensures Inv() && running.None? && !tlsSupport && !state.Connecting? && awaiting == old(awaiting)
      ensures calls == old(calls) + Called(old(handlers), stanza)
    {
      hide Inv, Grown, Wants, ToVisit, Called;
      FireIds(stanza);
      EnableAll();
      var i: nat := 0;
      ghost var all, left: nat := old(handlers), |handlers|;
      VisitAll(handlers, all, stanza);
      while i < |handlers|
        invariant Inv() && running.None? && !tlsSupport && !state.Connecting? && awaiting == old(awaiting)
        invariant i <= |handlers| && left <= |all| && ToVisit(handlers, all, i, left)
        invariant calls == old(calls) + Called(all[..|all| - left], stanza)
        decreases left, |handlers| - i
      {
        VisitFirst(handlers, all, i, left, stanza);
        if !handlers[i].enabled {
          i := i + 1;
        } else if !Wants(handlers[i].kind, stanza) {
          i, left := i + 1, left - 1;
        } else {
          ghost var before := handlers;
          var removed := FireItem(i, stanza, env);
          GrownEnabled(before, handlers, all, i, left, removed);
          left := left - 1;
          if !removed {
            i := i + 1;
          }
        }
      }
      VisitedAll(handlers, all, i, left, stanza);
    }

    // ----- the events of a connection

    /** auth_handle_open and _handle_open_sasl, after the opening tag of a stream. */
    method StreamStart(valid: bool)
      requires Inv() && running.None? && !tlsSupport && state.Connected? && awaiting
      modifies `awaiting, `state, `tls, `handlers, `timers
      ensures Inv() && !awaiting && !state.Connecting?
      ensures HasKind(handlers, if openHandler == OpenAuth then OnFeatures else OnFeaturesSasl)
    {
      hide Safe, BackedAll, IdsBacked, Tracks, HasKind, Distinct, HasSent, Backed, Grown, Added;
      awaiting := false;
      if !valid {
        ConnDisconnect();
      }
      AddedKinds(handlers, OnError);
      match openHandler
      case OpenAuth =>
        PlainBacked(log, mandatory, IsSecured());
        AddHandler(OnError);
        AddFeatures();
        AddTimer(MissingFeatures);
      case OpenSasl =>
        PlainBacked(log, mandatory, IsSecured());
        AddedKinds(handlers, OnFeaturesSasl);
        AddHandler(OnFeaturesSasl);
        AddTimer(MissingFeaturesSasl);
    }

    method AddFeatures()
      requires Inv() && running.None? && !awaiting && openHandler == OpenAuth && !state.Connecting?
      requires !secured ==> !HasSent(log, StartTls)
      modifies `handlers
      ensures Inv() && HasKind(handlers, OnFeatures)
    {
      hide Safe, BackedAll, IdsBacked, Tracks, HasKind, Distinct, HasSent, Backed, Grown, Added;
      AddedKinds(handlers, OnFeatures);
      PlainBacked(log, mandatory, IsSecured());
      AddedBacked(handlers, OnFeatures, log, mandatory, state.Connected?, IsSecured());
      handlers := Added(handlers, OnFeatures);
    }

    /** The socket is connected, or the attempt failed. */
    method Established(failed: bool, env: Env)
      requires Inv() && running.None? && !tlsSupport && state.Connecting?
      modifies `state, `tls, `secured, `tlsFailed, `resetParser, `openHandler, `log
      ensures Inv() && !state.Connecting?
      ensures log == if state.Connected? then
                       old(log) + (if secured then [TlsUp] else []) + [Sent(StreamOpen, IsSecured())]
                     else old(log)
      ensures secured <==> !failed && legacySsl && !disabled && env.tlsNew && env.tlsStart
      ensures state.Connected? <==>
                !failed && (legacySsl ==> !disabled && env.tlsNew && (env.tlsStart || env.tlsError == 0))
    {
      hide Safe, BackedAll, IdsBacked, Tracks, HasSent, Backed, Grown, Added;
      if failed {
        ConnDisconnect();
        return;
      }
      NothingYet(log, mandatory, IsSecured());
      state := Connected;
      if legacySsl {
        var ok := TlsStart(env);
        if !ok {
          ConnDisconnect();
          return;
        }
      }
      Queue(StreamOpen);
    }

    /** A timed handler fires, and is removed. */
    method FireTimer(timer: Timer, env: Env)
      requires Inv() && running.None? && !tlsSupport && state.Connected? && timer in timers
      modifies this
      ensures Inv() && running.None? && !tlsSupport && !state.Connecting? && awaiting == old(awaiting)
      ensures authenticated == old(authenticated)
      ensures timer == MissingFeatures ==> log == old(Attempt(false, sasl, log))
      ensures timer != MissingFeatures && timer != DisconnectCleanup ==> log == old(Queued(log, StreamClose))
    {
      hide Inv, Attempt, Grown;
      match timer {
        case MissingFeatures => Auth(env);
        case DisconnectCleanup => ConnDisconnect();
        case _ => Disconnect();
      }
      DeleteTimer(timer);
    }

    /** conn_parser_reset, from the event loop. */
    method ParserReset()
      requires Inv() && running.None? && !tlsSupport && resetParser
      modifies `resetParser, `awaiting
      ensures Inv() && awaiting && !resetParser
    {
      hide Safe, BackedAll, IdsBacked, Tracks, HasKind, Distinct, HasSent;
      resetParser := false;
      awaiting := true;
    }

    /** One event; those that cannot happen now are passed over. */
    method Step(event: Event, env: Env)
      requires Inv() && running.None? && !tlsSupport && !state.Disconnected?
      modifies this
      ensures Inv() && running.None? && !tlsSupport
    {
      hide Inv, Attempt, Queued, HasKind;
      match event
      case Opened(failed) =>
        if state.Connecting? {
          Established(failed, env);
        }
      case Start(valid) =>
        if state.Connected? && awaiting {
          StreamStart(valid);
        }
      case End =>
        if state.Connected? && !awaiting {
          DeleteTimer(DisconnectCleanup);
          ConnDisconnect();
        }
      case Received(stanza) =>
        if state.Connected? && !awaiting {
          FireStanza(stanza, env);
        }
      case Elapsed(timer) =>
        if state.Connected? && timer in timers {
          FireTimer(timer, env);
        }
      case Reset =>
        if resetParser {
          ParserReset();
        }
      case Dropped =>
        ConnDisconnect();
    }
  }

  /** An attempt to start TLS that fails with error 0 counts as a success: the stream is opened in the clear. */
  method OpenedInTheClear() returns (c: Connection)
    ensures c.legacySsl && c.Inv() && c.state.Connected? && c.log == [Sent(StreamOpen, false)]
  {
    c := new Connection(true, true, false, false, true);
    c.Established(false, Env(true, false, 0, true));
  }

  lemma IdsNow(ids: set<IdKind>, log: Log, e: Entry, id: IdKind)
    requires IdsBacked(ids, log + [e]) && e.Sent?
    requires e.out == match id
                      case IdBind => BindRequest
                      case IdSession => SessionRequest
                      case IdLegacy => LegacyAuth
    ensures IdsBacked(ids + {id}, log + [e])
  {
  }

  lemma ProceedBacked(log: Log, mandatory: bool, secured: bool)
    requires HasSent(log, StartTls)
    ensures Backed(OnProceedTls, log, mandatory, true, secured)
  {
  }

  lemma SaslBacked(kind: Kind, log: Log, mandatory: bool, secured: bool)
    requires IsSasl(kind) && SaslStarted(log) && (mandatory ==> secured)
    ensures Backed(kind, log, mandatory, true, secured)
  {
  }

  lemma MechAllowed(hasNode: bool, mandatory: bool, log: Log, m: Mech, secured: bool, sasl: set<Mech>)
    requires Tracks(sasl, log, true) && m in sasl && (mandatory ==> secured)
    requires Usable(hasNode, m) && forall a :: a in sasl ==> !Stronger(a, m)
    ensures MaySend(hasNode, mandatory, log, SaslAuth(m), secured)
  {
  }

  lemma TlsAllowed(hasNode: bool, mandatory: bool, log: Log)
    requires TlsUp !in log && (log == [] || HasSent(log, StartTls))
    ensures Allowed(hasNode, mandatory, log, TlsUp)
  {
  }

  lemma LegacyAllowed(mandatory: bool, log: Log, secured: bool, sasl: set<Mech>)
    requires Tracks(sasl, log, true) && (mandatory ==> secured) && forall m :: m in sasl ==> !Usable(true, m)
    ensures MaySend(true, mandatory, log, LegacyAuth, secured)
  {
  }

  predicate NamesMech(child: Stanza, m: Mech) {
    && child.name == "mechanism"
    && match m
       case Plain => SameIgnoringCase(child.text, "PLAIN")
       case DigestMd5 => SameIgnoringCase(child.text, "DIGEST-MD5")
       case ScramSha1 => SameIgnoringCase(child.text, "SCRAM-SHA-1")
       case Anonymous => SameIgnoringCase(child.text, "ANONYMOUS")
  }

  predicate Offers(stanza: Stanza, m: Mech) {
    var child := ChildByName(stanza.children, "mechanisms");
    child.Some? && exists i :: 0 <= i < |child.value.children| && NamesMech(child.value.children[i], m)
  }

  ghost function Offered(stanza: Stanza): set<Mech> {
    set m: Mech | HasChild(stanza, "mechanisms", NS_SASL) && Offers(stanza, m)
  }

  lemma EveryMech(a: set<Mech>, b: set<Mech>)
    requires forall m :: m in a <==> m in b
    ensures a == b
  {
  }

  lemma GrownBySame(hs: seq<Item>)
    ensures Grown(hs, hs)
  {
  }

  // ----- the list during a pass

  function EnabledItems(hs: seq<Item>): seq<Item> {
    seq(|hs|, k requires 0 <= k < |hs| => Item(hs[k].kind, true))
  }

  /** The filter of a handler on namespace and name. */
  predicate Wants(kind: Kind, stanza: Stanza) {
    match kind
    case OnError => Passes(Some(NS_STREAMS), Some("error"), None, stanza)
    case OnFeatures => Passes(Some(NS_STREAMS), Some("features"), None, stanza)
    case OnFeaturesSasl => Passes(Some(NS_STREAMS), Some("features"), None, stanza)
    case OnProceedTls => Passes(Some(NS_TLS), None, None, stanza)
    case _ => Passes(Some(NS_SASL), None, None, stanza)
  }

  /** The stanza, or a child of it, is in the namespace; features and errors are known by name too. */
  lemma WantsMeans(kind: Kind, stanza: Stanza)
    ensures var ns := if kind in {OnError, OnFeatures, OnFeaturesSasl} then "http://etherx.jabber.org/streams"
                      else if kind == OnProceedTls then "urn:ietf:params:xml:ns:xmpp-tls"
                      else "urn:ietf:params:xml:ns:xmpp-sasl";
            Wants(kind, stanza) <==>
              && (stanza.ns == ns || exists k :: 0 <= k < |stanza.children| && stanza.children[k].ns == ns)
              && (kind == OnError ==> stanza.name == "error")
              && (kind in {OnFeatures, OnFeaturesSasl} ==> stanza.name == "features")
  {
  }

  lemma ItemBacked(hs: seq<Item>, i: nat, log: Log, mandatory: bool, connected: bool, secured: bool)
    requires i < |hs| && hs[i].enabled && BackedAll(hs, log, mandatory, connected, secured)
    ensures HasKind(hs, hs[i].kind)
    ensures IsSasl(hs[i].kind) ==> SaslStarted(log) && (mandatory && connected ==> secured)
    ensures hs[i].kind == OnProceedTls && connected ==> HasSent(log, StartTls)
    ensures hs[i].kind == OnFeaturesSasl ==> Got(SaslSuccess) in log
  {
  }

  lemma PlainBacked(log: Log, mandatory: bool, secured: bool)
    ensures Backed(OnError, log, mandatory, true, secured) && Backed(OnFeatures, log, mandatory, true, secured)
    ensures Got(SaslSuccess) in log ==> Backed(OnFeaturesSasl, log, mandatory, true, secured)
  {
  }

  lemma NothingYet(log: Log, mandatory: bool, secured: bool)
    ensures BackedAll([], log, mandatory, true, secured) && IdsBacked({}, log)
  {
  }

  lemma GrownAt(before: seq<Item>, after: seq<Item>, i: nat)
    requires Grown(before, after) && i < |before|
    ensures i < |after| && after[i] == before[i] && Grown(Without(before, i), Without(after, i))
  {
  }

  lemma RemovedKinds(hs: seq<Item>, i: nat)
    requires i < |hs| && Distinct(hs)
    ensures Distinct(Without(hs, i))
    ensures forall k :: HasKind(Without(hs, i), k) <==> HasKind(hs, k) && k != hs[i].kind
  {
    var now := Without(hs, i);
    forall k | HasKind(now, k) ensures HasKind(hs, k) && k != hs[i].kind {
      var j :| 0 <= j < |now| && now[j].kind == k;
      assert hs[if j < i then j else j + 1].kind == k;
    }
    forall k | HasKind(hs, k) && k != hs[i].kind ensures HasKind(now, k) {
      var j :| 0 <= j < |hs| && hs[j].kind == k;
      assert now[if j < i then j else j - 1].kind == k;
    }
  }

  lemma RemovedBacked(hs: seq<Item>, i: nat, log: Log, mandatory: bool, connected: bool, secured: bool)
    requires i < |hs| && BackedAll(hs, log, mandatory, connected, secured)
    ensures BackedAll(Without(hs, i), log, mandatory, connected, secured)
  {
  }

  lemma EnabledKinds(hs: seq<Item>)
    requires Distinct(hs)
    ensures Distinct(EnabledItems(hs)) && (EnabledItems(hs) == [] <==> hs == [])
    ensures forall k :: HasKind(EnabledItems(hs), k) <==> HasKind(hs, k)
  {
    var now := EnabledItems(hs);
    forall k | HasKind(hs, k) ensures HasKind(now, k) {
      var j :| 0 <= j < |hs| && hs[j].kind == k;
      assert now[j].kind == k;
    }
  }

  lemma EnabledBacked(hs: seq<Item>, log: Log, mandatory: bool, secured: bool)
    requires BackedAll(hs, log, mandatory, true, secured)
    ensures BackedAll(EnabledItems(hs), log, mandatory, true, secured)
  {
  }

  /** The handlers that want the stanza, in the order of the list. */
  ghost function Called(hs: seq<Item>, stanza: Stanza): seq<Kind> {
    if hs == [] then []
    else
      var last := hs[|hs| - 1].kind;
      Called(hs[..|hs| - 1], stanza) + if Wants(last, stanza) then [last] else []
  }

  /** What the pass has still to visit: the last handlers of the list as it was, enabled; then those added since. */
  ghost predicate ToVisit(hs: seq<Item>, all: seq<Item>, i: nat, left: nat) {
    && i + left <= |hs| && left <= |all|
    && (forall k :: i <= k < i + left ==> hs[k] == Item(all[|all| - left + k - i].kind, true))
    && (forall k :: i + left <= k < |hs| ==> !hs[k].enabled)
  }

  lemma VisitAll(hs: seq<Item>, all: seq<Item>, stanza: Stanza)
    requires |hs| == |all| && forall k :: 0 <= k < |hs| ==> hs[k] == Item(all[k].kind, true)
    ensures ToVisit(hs, all, 0, |hs|) && Called(all[..0], stanza) == []
  {
  }

  /** A handler that is not enabled is one of those added since; the others come in the order of the list. */
  lemma VisitFirst(hs: seq<Item>, all: seq<Item>, i: nat, left: nat, stanza: Stanza)
    requires i < |hs| && ToVisit(hs, all, i, left)
    ensures hs[i].enabled <==> 0 < left
    ensures left == 0 ==> ToVisit(hs, all, i + 1, left)
    ensures 0 < left ==> ToVisit(hs, all, i + 1, left - 1)
    ensures 0 < left ==> var n := |all| - left;
                         Called(all[..n + 1], stanza) ==
                         Called(all[..n], stanza) + if Wants(hs[i].kind, stanza) then [hs[i].kind] else []
  {
    if 0 < left {
      var n := |all| - left;
      assert all[..n + 1][..n] == all[..n];
    }
  }

  lemma VisitedAll(hs: seq<Item>, all: seq<Item>, i: nat, left: nat, stanza: Stanza)
    requires i == |hs| && ToVisit(hs, all, i, left)
    ensures left == 0 && Called(all[..|all|], stanza) == Called(all, stanza)
  {
    assert all[..|all|] == all;
  }

  lemma VisitGrown(base: seq<Item>, after: seq<Item>, all: seq<Item>, i: nat, left: nat)
    requires ToVisit(base, all, i, left) && Grown(base, after)
    ensures ToVisit(after, all, i, left) && i + left <= |after|
  {
    assert forall k :: 0 <= k < |base| ==> after[k] == after[..|base|][k] == base[k];
  }

  lemma VisitWithout(hs: seq<Item>, all: seq<Item>, i: nat, left: nat)
    requires 0 < left && ToVisit(hs, all, i, left)
    ensures ToVisit(Without(hs, i), all, i, left - 1)
  {
    var now := Without(hs, i);
    assert forall k :: i <= k < |now| ==> now[k] == hs[k + 1];
  }

  /** After a call, the handlers that the pass has still to visit are those it had before. */
  lemma GrownEnabled(before: seq<Item>, after: seq<Item>, all: seq<Item>, i: nat, left: nat, removed: bool)
    requires 0 < left && ToVisit(before, all, i, left) && ToVisit(before, all, i + 1, left - 1)
    requires Grown(if removed then Without(before, i) else before, after)
    ensures ToVisit(after, all, if removed then i else i + 1, left - 1)
    ensures (if removed then i else i + 1) <= |after|
  {
    hide ToVisit, Grown, Without;
    if removed {
      VisitWithout(before, all, i, left);
      VisitGrown(Without(before, i), after, all, i, left - 1);
    } else {
      VisitGrown(before, after, all, i + 1, left - 1);
    }
  }

  // ----- runs

  datatype Event =
    | Opened(failed: bool) | Start(valid: bool) | End | Received(stanza: Stanza) | Elapsed(timer: Timer)
    | Reset | Dropped

  /** Any run of one connection, against any server, up to its first disconnect. */
  method Run(c: Connection, events: seq<(Event, Env)>)
    requires c.Inv() && c.running.None? && !c.tlsSupport && c.state.Connecting? && c.log == []
    modifies c
    ensures Safe(c.hasNode, c.mandatory, c.log)
    ensures c.authenticated ==> Authenticated in c.log
  {
    for k := 0 to |events|
      invariant c.Inv() && c.running.None? && !c.tlsSupport
    {
      if c.state.Disconnected? {
        return;
      }
      c.Step(events[k].0, events[k].1);
    }
  }
}
