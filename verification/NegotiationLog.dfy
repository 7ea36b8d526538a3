/** What may happen on one connection, in what order: the safety of stream negotiation. */
module NegotiationLog {

  datatype Mech = Anonymous | ScramSha1 | DigestMd5 | Plain

  datatype Out =
    | StreamOpen | StreamClose | StartTls | SaslAuth(mech: Mech) | SaslResponse | LegacyAuth
    | BindRequest | SessionRequest

  datatype Reply = Features(offered: set<Mech>) | SaslSuccess | BindResult | SessionResult | LegacyResult

  /**
   * What was queued, and whether the stream was secured then; that TLS came up; which replies were acted on; and
   * the outcome.
   */
  datatype Entry = Sent(out: Out, secured: bool) | TlsUp | Got(reply: Reply) | Authenticated

  type Log = seq<Entry>

  predicate HasSent(log: Log, out: Out) {
    Sent(out, true) in log || Sent(out, false) in log
  }

  predicate SaslStarted(log: Log) {
    || HasSent(log, SaslAuth(Anonymous)) || HasSent(log, SaslAuth(ScramSha1))
    || HasSent(log, SaslAuth(DigestMd5)) || HasSent(log, SaslAuth(Plain))
  }

  predicate IsCredential(out: Out) {
    out.SaslAuth? || out.SaslResponse? || out.LegacyAuth?
  }

  /** A mechanism for this identity: ANONYMOUS without the node of a JID, any other with it. */
  predicate Usable(hasNode: bool, m: Mech) {
    if hasNode then m != Anonymous else m == Anonymous
  }

  /** SCRAM-SHA-1 above DIGEST-MD5 above PLAIN. */
  predicate Stronger(a: Mech, b: Mech) {
    || (a == ScramSha1 && (b == DigestMd5 || b == Plain))
    || (a == DigestMd5 && b == Plain)
  }

  /** Features offered the mechanism, and it was not started since. */
  predicate Pending(log: Log, m: Mech) {
    log != [] &&
    (var last := log[|log| - 1];
     || (last.Got? && last.reply.Features? && m in last.reply.offered)
     || (!(last.Sent? && last.out == SaslAuth(m)) && Pending(log[..|log| - 1], m)))
  }

  predicate MaySend(hasNode: bool, mandatory: bool, log: Log, out: Out, secured: bool) {
    && (mandatory && IsCredential(out) ==> secured)
    && match out
       case StartTls => !HasSent(log, StartTls)
       case SaslAuth(m) =>
         Pending(log, m) && Usable(hasNode, m) && forall a: Mech :: Stronger(a, m) ==> !Pending(log, a)
       case LegacyAuth => hasNode && forall m: Mech :: m != Anonymous ==> !Pending(log, m)
       case SaslResponse => SaslStarted(log)
       case BindRequest => Got(SaslSuccess) in log
       case SessionRequest => Got(BindResult) in log
       case _ => true
  }

  predicate MayGet(log: Log, reply: Reply) {
    match reply
    case Features(_) => true
    case SaslSuccess => SaslStarted(log)
    case BindResult => HasSent(log, BindRequest)
    case SessionResult => HasSent(log, SessionRequest)
    case LegacyResult => HasSent(log, LegacyAuth)
  }

  predicate EndsInResult(log: Log) {
    log != [] && log[|log| - 1] in {Got(BindResult), Got(SessionResult), Got(LegacyResult)}
  }

  predicate Allowed(hasNode: bool, mandatory: bool, log: Log, e: Entry) {
    match e
    case Sent(out, secured) => MaySend(hasNode, mandatory, log, out, secured) && (secured ==> TlsUp in log)
    case TlsUp => TlsUp !in log && (log == [] || HasSent(log, StartTls))
    case Got(reply) => MayGet(log, reply)
    case Authenticated => EndsInResult(log)
  }

  predicate Safe(hasNode: bool, mandatory: bool, log: Log) {
    log == [] || (Safe(hasNode, mandatory, log[..|log| - 1]) && Allowed(hasNode, mandatory, log[..|log| - 1], log[|log| - 1]))
  }

  lemma SafeGrows(hasNode: bool, mandatory: bool, log: Log, e: Entry)
    requires Safe(hasNode, mandatory, log) && Allowed(hasNode, mandatory, log, e)
    ensures Safe(hasNode, mandatory, log + [e])
  {
    assert (log + [e])[..|log|] == log;
  }

  /** What was in the log stays in it. */
  lemma HadSentGrows(log: Log, e: Entry, out: Out)
    ensures HasSent(log + [e], out) <==> HasSent(log, out) || (e.Sent? && e.out == out)
    ensures SaslStarted(log) ==> SaslStarted(log + [e])
    ensures e.Sent? && e.out.SaslAuth? ==> SaslStarted(log + [e])
  {
    if e.Sent? && e.out.SaslAuth? {
      assert e in log + [e];
      assert HasSent(log + [e], e.out);
      match e.out.mech
      case Anonymous =>
      case ScramSha1 =>
      case DigestMd5 =>
      case Plain =>
    }
  }

  // ----- what a safe log means

  lemma {:induction false} SafeAt(hasNode: bool, mandatory: bool, log: Log, k: nat)
    requires Safe(hasNode, mandatory, log) && k < |log|
    ensures Safe(hasNode, mandatory, log[..k]) && Allowed(hasNode, mandatory, log[..k], log[k])
    decreases |log|
  {
    if k < |log| - 1 {
      SafeAt(hasNode, mandatory, log[..|log| - 1], k);
      assert log[..|log| - 1][..k] == log[..k];
    }
  }

  lemma {:induction false} NoneBefore(hasNode: bool, mandatory: bool, log: Log, j: nat)
    requires Safe(hasNode, mandatory, log) && j < |log| && log[j].Sent? && log[j].out == StartTls
    ensures forall i :: 0 <= i < j && log[i].Sent? ==> log[i].out != StartTls
  {
    hide Safe;
    SafeAt(hasNode, mandatory, log, j);
    forall i | 0 <= i < j && log[i].Sent? ensures log[i].out != StartTls {
      assert log[..j][i] == log[i];
    }
  }

  /** STARTTLS is sent at most once. */
  lemma {:induction false} StartTlsOnce(hasNode: bool, mandatory: bool, log: Log, i: nat, j: nat)
    requires Safe(hasNode, mandatory, log) && i < |log| && j < |log|
    requires log[i].Sent? && log[i].out == StartTls && log[j].Sent? && log[j].out == StartTls
    ensures i == j
  {
    hide Safe;
    NoneBefore(hasNode, mandatory, log, i);
    NoneBefore(hasNode, mandatory, log, j);
  }

  predicate Starts(e: Entry, m: Mech) {
    e.Sent? && e.out == SaslAuth(m)
  }

  predicate Offering(e: Entry, m: Mech) {
    e.Got? && e.reply.Features? && m in e.reply.offered
  }

  /** A mechanism that is pending was offered by the entry found, and not started after it. */
  lemma {:induction false} OfferOf(log: Log, m: Mech) returns (i: nat)
    requires Pending(log, m)
    ensures i < |log| && Offering(log[i], m) && forall k :: i < k < |log| ==> !Starts(log[k], m)
    decreases |log|
  {
    if Offering(log[|log| - 1], m) {
      i := |log| - 1;
    } else {
      var before := log[..|log| - 1];
      i := OfferOf(before, m);
      assert forall k :: 0 <= k < |before| ==> before[k] == log[k];
    }
  }

  /** A mechanism that was offered and is not pending has been started since. */
  lemma {:induction false} StartOf(log: Log, m: Mech, i: nat) returns (k: nat)
    requires i < |log| && Offering(log[i], m) && !Pending(log, m)
    ensures i < k < |log| && Starts(log[k], m)
    decreases |log|
  {
    if Starts(log[|log| - 1], m) {
      k := |log| - 1;
    } else {
      k := StartOf(log[..|log| - 1], m, i);
    }
  }

  /** A mechanism is started for this identity only, and only after the server has offered it; and once per offer. */
  lemma {:induction false} StartedAsOffered(hasNode: bool, mandatory: bool, log: Log, m: Mech, j: nat) returns (i: nat)
    requires Safe(hasNode, mandatory, log) && j < |log| && Starts(log[j], m)
    ensures m == Anonymous <==> !hasNode
    ensures i < j && Offering(log[i], m) && forall k :: i < k < j ==> !Starts(log[k], m)
  {
    hide Safe, Pending;
    SafeAt(hasNode, mandatory, log, j);
    i := OfferOf(log[..j], m);
    assert forall k :: 0 <= k < j ==> log[..j][k] == log[k];
  }

  /** Before a mechanism is started every stronger one that was offered has been started. */
  lemma {:induction false} StrongerFirst(hasNode: bool, mandatory: bool, log: Log, a: Mech, b: Mech, i: nat, j: nat)
    returns (k: nat)
    requires Safe(hasNode, mandatory, log) && i < j < |log| && Stronger(a, b)
    requires Offering(log[i], a) && Starts(log[j], b)
    ensures i < k < j && Starts(log[k], a)
  {
    hide Safe, Pending;
    SafeAt(hasNode, mandatory, log, j);
    k := StartOf(log[..j], a, i);
  }

  /** Legacy authentication is for those with a node, and comes after every mechanism offered for them. */
  lemma {:induction false} LegacyLast(hasNode: bool, mandatory: bool, log: Log, m: Mech, i: nat, j: nat) returns (k: nat)
    requires Safe(hasNode, mandatory, log) && i < j < |log| && m != Anonymous
    requires Offering(log[i], m) && log[j].Sent? && log[j].out == LegacyAuth
    ensures hasNode && i < k < j && Starts(log[k], m)
  {
    hide Safe, Pending;
    SafeAt(hasNode, mandatory, log, j);
    k := StartOf(log[..j], m, i);
  }

  /** Between two starts of one mechanism a features stanza that offers it was handled. */
  lemma {:induction false} MechanismOncePerFeatures(hasNode: bool, mandatory: bool, log: Log, m: Mech, i: nat, j: nat)
    returns (k: nat)
    requires Safe(hasNode, mandatory, log) && i < j < |log| && Starts(log[i], m) && Starts(log[j], m)
    ensures i < k < j && Offering(log[k], m)
  {
    hide Safe, Pending;
    k := StartedAsOffered(hasNode, mandatory, log, m, j);
  }

  lemma TlsUpAt(log: Log) returns (i: nat)
    requires TlsUp in log
    ensures i < |log| && log[i] == TlsUp
  {
    i :| i < |log| && log[i] == TlsUp;
  }

  /** What is sent as secured is sent after TLS came up; and that is the first event, or comes after STARTTLS. */
  lemma {:induction false} SecuredByTls(hasNode: bool, mandatory: bool, log: Log, k: nat) returns (i: nat, j: nat)
    requires Safe(hasNode, mandatory, log) && k < |log| && log[k].Sent? && log[k].secured
    ensures i < k && log[i] == TlsUp
    ensures i == 0 || (j < i && log[j].Sent? && log[j].out == StartTls)
  {
    hide Safe, MaySend, HasSent;
    SafeAt(hasNode, mandatory, log, k);
    i := TlsUpAt(log[..k]);
    SafeAt(hasNode, mandatory, log, i);
    j := 0;
    if log[..i] != [] {
      j := SentAt(log[..i], StartTls);
    }
  }

  /** With mandatory TLS no credential is queued in the clear, or before TLS came up. */
  lemma {:induction false} NoCredentialInTheClear(hasNode: bool, log: Log, k: nat) returns (i: nat)
    requires Safe(hasNode, true, log) && k < |log| && log[k].Sent? && IsCredential(log[k].out)
    ensures log[k].secured && i < k && log[i] == TlsUp
  {
    hide Safe;
    SafeAt(hasNode, true, log, k);
    var j;
    i, j := SecuredByTls(hasNode, true, log, k);
  }

  lemma SentAt(log: Log, out: Out) returns (k: nat)
    requires HasSent(log, out)
    ensures k < |log| && log[k].Sent? && log[k].out == out
  {
    k :| k < |log| && log[k].Sent? && log[k].out == out;
  }

  lemma SaslAt(log: Log) returns (k: nat)
    requires SaslStarted(log)
    ensures k < |log| && log[k].Sent? && log[k].out.SaslAuth?
  {
    k :| k < |log| && log[k].Sent? && log[k].out.SaslAuth?;
  }

  lemma GotAt(log: Log, reply: Reply) returns (k: nat)
    requires Got(reply) in log
    ensures k < |log| && log[k] == Got(reply)
  {
    k :| k < |log| && log[k] == Got(reply);
  }

  /** A resource is bound only after a mechanism was started, then succeeded, then the request was sent. */
  lemma {:induction false} BoundAfterSasl(hasNode: bool, mandatory: bool, log: Log, k: nat) returns (a: nat, b: nat, c: nat)
    requires Safe(hasNode, mandatory, log) && k < |log| && log[k] == Got(BindResult)
    ensures a < b < c < k && log[a].Sent? && log[a].out.SaslAuth? && log[b] == Got(SaslSuccess)
    ensures log[c].Sent? && log[c].out == BindRequest
  {
    hide Safe, HasSent, SaslStarted;
    SafeAt(hasNode, mandatory, log, k);
    c := SentAt(log[..k], BindRequest);
    SafeAt(hasNode, mandatory, log, c);
    b := GotAt(log[..c], SaslSuccess);
    SafeAt(hasNode, mandatory, log, b);
    a := SaslAt(log[..b]);
  }

  /** The connection is authenticated only by a result: of binding, of a session, or of legacy authentication. */
  lemma {:induction false} AuthenticatedByResult(hasNode: bool, mandatory: bool, log: Log, k: nat) returns (a: nat)
    requires Safe(hasNode, mandatory, log) && k < |log| && log[k] == Authenticated
    ensures 0 < k && log[k - 1] in {Got(BindResult), Got(SessionResult), Got(LegacyResult)}
    ensures a < k && log[a].Sent? && IsCredential(log[a].out) && (mandatory ==> log[a].secured)
  {
    hide Safe, HasSent, SaslStarted, Pending;
    SafeAt(hasNode, mandatory, log, k);
    SafeAt(hasNode, mandatory, log, k - 1);
    if log[k - 1] == Got(LegacyResult) {
      a := SentAt(log[..k - 1], LegacyAuth);
    } else {
      var bound := k - 1;
      if log[k - 1] == Got(SessionResult) {
        var r := SentAt(log[..k - 1], SessionRequest);
        SafeAt(hasNode, mandatory, log, r);
        bound := GotAt(log[..r], BindResult);
      }
      var b, c;
      a, b, c := BoundAfterSasl(hasNode, mandatory, log, bound);
    }
    SafeAt(hasNode, mandatory, log, a);
  }
}
