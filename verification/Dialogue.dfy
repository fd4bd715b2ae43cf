/** Whole conversations: with a server that answers, every operation asks what it should, in the order it should, and
    returns what it was told. Worlds are spelled out event by event. */
module Dialogue {
  import opened Basics
  import opened Tree
  import opened Registry
  import opened Errors
  import opened Printer
  import opened Protocol
  import opened Session
  import opened Replies
  import Codec
  import Decimal

  /** No local step fails: every request is built, and the store always answers. */
  ghost predicate Reliable(env: Env) {
    env.reg.WellFormed() && forall h :: !env.fails(h)
  }

  // ---- One request --------------------------------------------------------

  /** The steps before a request goes out. */
  function Asking(h: History): History {
    Then(Then(h, RequestBuilt(true)), PolicyRead(true))
  }

  /** The server's reply to a request made in this world. */
  function ReplyTo(env: Env, w: World, req: Request, body: Bytes): Reply {
    env.answer(Asking(w.history), Command(req), w.store.policyKey, body)
  }

  /** The world after that request. */
  function Sent(env: Env, w: World, req: Request, body: Bytes): World {
    World(w.store, Then(Asking(w.history), Exchange(req, body, w.store.policyKey, ReplyTo(env, w, req, body))))
  }

  /** What a reply means: a body for HTTP 200 to 299, an HTTP error for any other status. */
  predicate Means(reply: Reply, r: Result<Bytes, Error>) {
    match reply
    case NoReply => r.Failure? && FirstHttp(r.error) == FirstStatus(r.error) == None
    case Answer(status, body) => r == if 200 <= status <= 299 then Success(body) else Failure(HttpError(status))
  }

  lemma OneRequest(env: Env, w: World, req: Request, body: Bytes)
    requires Reliable(env)
    ensures var o := PostRawOnce(env, w, req, body);
            o.w == Sent(env, w, req, body) && Means(ReplyTo(env, w, req, body), o.r)
  {
    hide Command;
  }

  predicate HasStatus(reply: Reply, code: int) { reply.Answer? && reply.status == code }

  /** A reply that is not retried ends the post: any but 401, where that is to be retried, and 449 outside Provision. */
  lemma {:induction false} NoRetry(env: Env, w: World, req: Request, body: Bytes)
    requires Reliable(env)
    requires !(env.retryOn401 && HasStatus(ReplyTo(env, w, req, body), 401))
    requires !(!req.Provision? && HasStatus(ReplyTo(env, w, req, body), 449))
    ensures var o := PostRaw(env, w, req, body);
            o.w == Sent(env, w, req, body) && Means(ReplyTo(env, w, req, body), o.r)
  {
    hide PostRawOnce, Sent, ReplyTo;
    OneRequest(env, w, req, body);
  }

  /** After 401 the same bytes are sent exactly once more, and the second reply decides. */
  lemma {:induction false} ResendAfter401(env: Env, w: World, req: Request, body: Bytes)
    requires Reliable(env) && env.retryOn401 && HasStatus(ReplyTo(env, w, req, body), 401)
    ensures var once := Sent(env, w, req, body);
            var o := PostRaw(env, w, req, body);
            o.w == Sent(env, once, req, body) && Means(ReplyTo(env, once, req, body), o.r)
  {
    hide PostRawOnce, Sent, ReplyTo;
    OneRequest(env, w, req, body);
    OneRequest(env, Sent(env, w, req, body), req, body);
  }

  /** After 449 the client provisions; if that succeeds the same bytes are sent once more and the second reply decides, and
      if not, the failure is passed on and nothing more is sent. */
  lemma {:induction false} ResendAfter449(env: Env, w: World, req: Request, body: Bytes)
    requires Reliable(env) && !req.Provision? && HasStatus(ReplyTo(env, w, req, body), 449)
    ensures var p := ProvisionAll(env, Sent(env, w, req, body));
            var o := PostRaw(env, w, req, body);
            && (p.r.Success? ==> o.w == Sent(env, p.w, req, body) && Means(ReplyTo(env, p.w, req, body), o.r))
            && (p.r.Failure? ==> o.w == p.w && o.r.Failure? && FirstStatus(o.r.error) == FirstStatus(p.r.error)
                                 && FirstHttp(o.r.error) == FirstHttp(p.r.error))
  {
    hide PostRawOnce, Sent, ReplyTo, ProvisionAll;
    OneRequest(env, w, req, body);
    var p := ProvisionAll(env, Sent(env, w, req, body));
    OneRequest(env, p.w, req, body);
  }

  // ---- One post -----------------------------------------------------------

  predicate Encodes(env: Env, req: Request) { Codec.Marshal(env.reg, DocumentOf(RootOf(req))).Success? }

  function BodyOf(env: Env, req: Request): Bytes {
    match Codec.Marshal(env.reg, DocumentOf(RootOf(req))) case Success(b) => b case Failure(_) => []
  }

  /** The world after posting a request that is answered at once. */
  function After(env: Env, w: World, req: Request): World {
    Sent(env, Log(w, Posted(req)), req, BodyOf(env, req))
  }

  /** The server answers this post at once, with HTTP 200 and a document. */
  predicate Answers(env: Env, w: World, req: Request, root: Element) {
    && Encodes(env, req) && OpaqueFits(root)
    && Codec.Marshal(env.reg, DocumentOf(root)).Success?
    && ReplyTo(env, Log(w, Posted(req)), req, BodyOf(env, req)) == Answer(200, Codec.Marshal(env.reg, DocumentOf(root)).value)
  }

  /** A document the server writes is the one the caller gets. */
  lemma {:induction false} PostAnswered(env: Env, w: World, req: Request, root: Element)
    requires Reliable(env) && Answers(env, w, req, root)
    ensures Post(env, w, req) == Outcome(After(env, w, req), Success(Some(root)))
  {
    hide PostRaw, Codec.Marshal, Codec.Unmarshal, RootOf, OpaqueFits, Sent, ReplyTo;
    NoRetry(env, Log(w, Posted(req)), req, BodyOf(env, req));
    Codec.RoundTrip(env.reg, DocumentOf(root));
    NotEmpty(env, root);
  }

  lemma NotEmpty(env: Env, root: Element)
    requires Codec.Marshal(env.reg, DocumentOf(root)).Success?
    ensures Codec.Marshal(env.reg, DocumentOf(root)).value != []
  {
  }

  /** The server answers this post at once, with HTTP 200 and an empty body. */
  predicate SaysNothing(env: Env, w: World, req: Request) {
    Encodes(env, req) && ReplyTo(env, Log(w, Posted(req)), req, BodyOf(env, req)) == Answer(200, [])
  }

  /** An empty body is no document. */
  lemma {:induction false} PostUnanswered(env: Env, w: World, req: Request)
    requires Reliable(env) && SaysNothing(env, w, req)
    ensures Post(env, w, req) == Outcome(After(env, w, req), Success(None))
  {
    hide PostRaw, Codec.Marshal, RootOf, Sent, ReplyTo;
    NoRetry(env, Log(w, Posted(req)), req, BodyOf(env, req));
  }

  /** A request that cannot be encoded is not sent. A reply that is no document, or no success, fails the post, the latter
      with its HTTP status; neither counts as a status of the protocol. */
  lemma {:induction false} PostFails(env: Env, w: World, req: Request, reply: Reply)
    requires Reliable(env)
    ensures !Encodes(env, req) ==> var o := Post(env, w, req); o.w == Log(w, Posted(req)) && o.r.Failure?
    ensures Encodes(env, req) && reply == ReplyTo(env, Log(w, Posted(req)), req, BodyOf(env, req)) ==>
              var o := Post(env, w, req);
              && (reply.Answer? && 200 <= reply.status <= 299 && reply.body != [] && Codec.Unmarshal(env.reg, reply.body).Failure? ==>
                    o.w == After(env, w, req) && o.r.Failure? && FirstStatus(o.r.error) == FirstHttp(o.r.error) == None)
              && (reply.Answer? && !(200 <= reply.status <= 299) && reply.status != 401 && reply.status != 449 ==>
                    o.w == After(env, w, req) && o.r == Failure(HttpError(reply.status)))
              && (reply.NoReply? ==>
                    o.w == After(env, w, req) && o.r.Failure? && FirstStatus(o.r.error) == FirstHttp(o.r.error) == None)
  {
    hide PostRaw, Sent, ReplyTo, RootOf, Codec.Unmarshal, Codec.Marshal;
    if Encodes(env, req) && !HasStatus(reply, 401) && !HasStatus(reply, 449)
       && reply == ReplyTo(env, Log(w, Posted(req)), req, BodyOf(env, req)) {
      NoRetry(env, Log(w, Posted(req)), req, BodyOf(env, req));
    }
  }

  // ---- The store ----------------------------------------------------------

  function Read(w: World, folder: Bytes): World { Log(w, KeyRead(folder, true)) }

  function Wrote(w: World, folder: Bytes, key: Key): World {
    World(Store(w.store.policyKey, w.store.syncKeys[folder := key]), Then(w.history, KeyWrite(folder, key, true)))
  }

  function WrotePolicy(w: World, key: Key): World {
    World(Store(key, w.store.syncKeys), Then(w.history, PolicyWrite(key, true)))
  }

  lemma StoreAnswers(env: Env, w: World, folder: Bytes, key: Key)
    requires Reliable(env)
    ensures ReadKey(env, w, folder) == Outcome(Read(w, folder), Success(w.store.KeyOf(folder)))
    ensures WriteKey(env, w, folder, key) == Outcome(Wrote(w, folder, key), Success(()))
    ensures WritePolicy(env, w, key) == Outcome(WrotePolicy(w, key), Success(()))
  {
  }

  // ---- Provisioning -------------------------------------------------------

  const ZERO_KEY: Key := [0x30]

  /** Both phases are asked and answered: the temporary key is stored between them, and the final one at the end. */
  lemma {:induction false} ProvisionCompletes(env: Env, w: World, top: Option<Decimal.int64>,
                                              policy: Option<Decimal.int64>, temp: Key, top': Option<Decimal.int64>,
                                              policy': Option<Decimal.int64>, final: Key)
    requires Reliable(env) && !Fails(top) && !Fails(policy) && !Fails(top') && !Fails(policy') && temp != [] && final != []
    requires Answers(env, w, Provision(ZERO_KEY, false), ProvisionReply(top, policy, Some(temp)))
    requires var w1 := WrotePolicy(After(env, w, Provision(ZERO_KEY, false)), temp);
             Answers(env, w1, Provision(temp, true), ProvisionReply(top', policy', Some(final)))
    ensures var w1 := WrotePolicy(After(env, w, Provision(ZERO_KEY, false)), temp);
            ProvisionAll(env, w) == Outcome(WrotePolicy(After(env, w1, Provision(temp, true)), final), Success(()))
  {
    hide Post, Answers, After, ProvisionReply, ProvisionPhase, WritePolicy;
    PhaseAnswered(env, w, ZERO_KEY, false, top, policy, Some(temp));
    var w1 := After(env, w, Provision(ZERO_KEY, false));
    StoreAnswers(env, w1, [], temp);
    PhaseAnswered(env, WrotePolicy(w1, temp), temp, true, top', policy', Some(final));
    StoreAnswers(env, After(env, WrotePolicy(w1, temp), Provision(temp, true)), [], final);
  }

  /** A phase gives the key of the reply, or its refusal: of the whole, or of the policy. */
  lemma {:induction false} PhaseAnswered(env: Env, w: World, key: Key, ack: bool, top: Option<Decimal.int64>,
                                         policy: Option<Decimal.int64>, sent: Option<Key>)
    requires Reliable(env) && Answers(env, w, Provision(key, ack), ProvisionReply(top, policy, sent))
    ensures ProvisionPhase(env, w, key, ack)
         == Outcome(After(env, w, Provision(key, ack)),
                    if Fails(top) then Failure(StatusError("Provision", top.value))
                    else if Fails(policy) then Failure(StatusError("Provision/Policy", policy.value))
                    else Success(match sent case Some(k) => k case None => []))
  {
    hide Post, Answers, After, ProvisionReply, Refusal, SentKey, Find;
    PostAnswered(env, w, Provision(key, ack), ProvisionReply(top, policy, sent));
    ProvisionReplyIsRead(Provision(key, ack), top, policy, sent);
  }

  /** A phase fails if there is no document in the reply, or no policy in it. */
  lemma {:induction false} PhaseFails(env: Env, w: World, key: Key, ack: bool, root: Element)
    requires Reliable(env)
    requires || SaysNothing(env, w, Provision(key, ack))
             || (Answers(env, w, Provision(key, ack), root)
                 && Named(Preorder(root), "Policy") == [] && Children(root.children, "Status") == [])
    ensures var o := ProvisionPhase(env, w, key, ack);
            o.w == After(env, w, Provision(key, ack)) && o.r.Failure? && FirstStatus(o.r.error) == FirstHttp(o.r.error) == None
  {
    hide Post, Answers, SaysNothing, After, Find, Preorder, Refusal;
    var req := Provision(key, ack);
    if SaysNothing(env, w, req) {
      PostUnanswered(env, w, req);
    } else {
      PostAnswered(env, w, req, root);
      FindIsFirstNamed(root, "Policy");
      RefusalOfAnyOther(req, root);
    }
  }

  /** A refusal of the first phase, or a reply without a key, ends Provision there; one of the second leaves the temporary
      key stored. */
  lemma {:induction false} ProvisionStops(env: Env, w: World, top: Option<Decimal.int64>,
                                          policy: Option<Decimal.int64>, temp: Option<Key>,
                                          top': Option<Decimal.int64>, policy': Option<Decimal.int64>,
                                          final: Option<Key>)
    requires Reliable(env) && Answers(env, w, Provision(ZERO_KEY, false), ProvisionReply(top, policy, temp))
    ensures var code, o := FailingCode(top, policy), ProvisionAll(env, w);
            code.Some? || temp.None? || temp.value == [] ==>
              o.w == After(env, w, Provision(ZERO_KEY, false)) && o.r.Failure? && FirstStatus(o.r.error) == code
    ensures var code, o, first := FailingCode(top', policy'), ProvisionAll(env, w), After(env, w, Provision(ZERO_KEY, false));
            FailingCode(top, policy).None? && temp.Some? && temp.value != []
            && Answers(env, WrotePolicy(first, temp.value), Provision(temp.value, true), ProvisionReply(top', policy', final))
            && (code.Some? || final.None? || final.value == []) ==>
              && o.w == After(env, WrotePolicy(first, temp.value), Provision(temp.value, true))
              && o.r.Failure? && FirstStatus(o.r.error) == code
  {
    hide Reliable, Answers, After, ProvisionPhase, WritePolicy, ProvisionReply;
    PhaseAnswered(env, w, ZERO_KEY, false, top, policy, temp);
    if temp.Some? {
      var first := After(env, w, Provision(ZERO_KEY, false));
      StoreAnswers(env, first, [], temp.value);
      if Answers(env, WrotePolicy(first, temp.value), Provision(temp.value, true), ProvisionReply(top', policy', final)) {
        PhaseAnswered(env, WrotePolicy(first, temp.value), temp.value, true, top', policy', final);
      }
    }
  }
}
