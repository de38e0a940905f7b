/** The LLM client (backend/services/llm.py): bounded retries, settlement of every reservation, the token budget and the
    cache. The provider's replies are oracles. */
module LlmClient {
  import opened Prelude

  /** The cache as the client sees it, or none. */
  type Cache = Option<map<string, string>>

  // ----- Usage -----

  datatype Prices = Prices(input: real, output: real)

  datatype Usage = Usage(requests: nat, promptTokens: nat, completionTokens: nat, cacheHits: nat, cost: real)

  const NO_USAGE := Usage(0, 0, 0, 0, 0.0)

  function TotalTokens(u: Usage): nat {
    u.promptTokens + u.completionTokens
  }

  function Charge(u: Usage, p: Prices, prompt: nat, completion: nat): Usage {
    u.(requests := u.requests + 1, promptTokens := u.promptTokens + prompt,
       completionTokens := u.completionTokens + completion,
       cost := u.cost + (prompt as real * p.input + completion as real * p.output) / 1000000.0)
  }

  /** The cost is what the counted tokens cost. */
  predicate Priced(u: Usage, p: Prices) {
    u.cost == (u.promptTokens as real * p.input + u.completionTokens as real * p.output) / 1000000.0
  }

  // ----- One chat -----

  /** The `retry-after` header as a number, if it is one. */
  datatype RetryAfter = Seconds(n: real) | Malformed

  /** The JSON body of a reply; the content is missing if there is no first choice. */
  datatype Body = Undecodable | Decoded(prompt: nat, completion: nat, content: Option<string>)

  datatype Reply =
    | TransportError
    | OtherFault
    | Http(status: int, retryAfter: RetryAfter, failedToGenerateJson: bool, body: Body)

  datatype Reason =
    | BudgetExhausted | RateLimitExhausted | HttpStatus(status: int) | RetriesExhausted | BadHeader
    | NoJsonBody | NoChoice | Fault | InvalidTwice

  datatype End = Text(text: string) | Failed(reason: Reason)

  /** What the client does to the limiter and the provider. A settlement belongs to the latest reservation. */
  datatype Op = Reserved(tokens: nat) | Posted(jsonMode: bool) | Settled(actual: nat)

  datatype Trace = Trace(ops: seq<Op>, end: End, usage: Usage)

  function Prepend(ops: seq<Op>, t: Trace): Trace {
    t.(ops := ops + t.ops)
  }

  function Attempt(est: nat, jsonMode: bool): seq<Op> {
    [Reserved(est), Posted(jsonMode)]
  }

  /** A try that was settled for nothing. */
  function Wasted(est: nat, jsonMode: bool): seq<Op> {
    [Reserved(est), Posted(jsonMode), Settled(0)]
  }

  /** What one reply leads to. */
  datatype Verdict = Again(jsonMode: bool) | Stop(settled: Option<nat>, end: End, usage: Usage)

  function Judge(r: Reply, jsonMode: bool, p: Prices, u: Usage): Verdict {
    match r
    case TransportError => Again(jsonMode)
    case OtherFault => Stop(None, Failed(Fault), u)
    case Http(status, retryAfter, failedToGenerateJson, body) =>
      if status == 429 || status >= 500 then
        match retryAfter
        case Malformed => Stop(Some(0), Failed(BadHeader), u)
        case Seconds(n) =>
          if status == 429 && n > 300.0 then Stop(Some(0), Failed(RateLimitExhausted), u) else Again(jsonMode)
      else if status == 400 && failedToGenerateJson && jsonMode then Again(false)
      else if status != 200 then Stop(Some(0), Failed(HttpStatus(status)), u)
      else
        match body
        case Undecodable => Stop(None, Failed(NoJsonBody), u)
        case Decoded(prompt, completion, content) =>
          Stop(Some(prompt + completion), if content.Some? then Text(content.value) else Failed(NoChoice),
               Charge(u, p, prompt, completion))
  }

  function ChatFrom(reply: nat -> Reply, k: nat, retries: nat, jsonMode: bool, est: nat, p: Prices, u: Usage): Trace
    decreases retries - k
  {
    if k >= retries then Trace([], Failed(RetriesExhausted), u)
    else
      match Judge(reply(k), jsonMode, p, u)
      case Again(mode) => Prepend(Wasted(est, jsonMode), ChatFrom(reply, k + 1, retries, mode, est, p, u))
      case Stop(settled, end, usage) =>
        Trace(Attempt(est, jsonMode) + (if settled.Some? then [Settled(settled.value)] else []), end, usage)
  }

  function ChatTrace(reply: nat -> Reply, retries: nat, budget: int, est: nat, p: Prices, u: Usage): Trace {
    if TotalTokens(u) >= budget then Trace([], Failed(BudgetExhausted), u)
    else ChatFrom(reply, 0, retries, true, est, p, u)
  }

  // ----- Properties of one chat -----

  /** The two ends after which the last reservation stays as it is. */
  predicate Leaks(e: End) {
    e == Failed(Fault) || e == Failed(NoJsonBody)
  }

  /** Every reservation is followed by one post and by exactly one settlement, except that a final leak has none. */
  predicate EachSettledOnce(ops: seq<Op>, leaks: bool) {
    if ops == [] then !leaks
    else if |ops| == 2 then ops[0].Reserved? && ops[1].Posted? && leaks
    else |ops| >= 3 && ops[0].Reserved? && ops[1].Posted? && ops[2].Settled? && EachSettledOnce(ops[3..], leaks)
  }

  function Posts(ops: seq<Op>): seq<bool> {
    if ops == [] then [] else (if ops[0].Posted? then [ops[0].jsonMode] else []) + Posts(ops[1..])
  }

  function SettledTokens(ops: seq<Op>): nat {
    if ops == [] then 0 else (if ops[0].Settled? then ops[0].actual else 0) + SettledTokens(ops[1..])
  }

  /** Once JSON mode is off it stays off: it is dropped at most once. */
  predicate DropsOnce(modes: seq<bool>) {
    forall i, j :: 0 <= i < j < |modes| && modes[j] ==> modes[i]
  }

  lemma {:induction false} ConcatOps(a: seq<Op>, b: seq<Op>)
    ensures Posts(a + b) == Posts(a) + Posts(b)
    ensures SettledTokens(a + b) == SettledTokens(a) + SettledTokens(b)
  {
    if a == [] {
      assert a + b == b;
    } else {
      var head, rest := a[0], a[1..];
      assert (a + b)[0] == head && (a + b)[1..] == rest + b;
      ConcatOps(rest, b);
      ConcatThree(if head.Posted? then [head.jsonMode] else [], Posts(rest), Posts(b));
    }
  }

  lemma {:induction false} AttemptOps(est: nat, jsonMode: bool, settled: nat)
    ensures Posts(Attempt(est, jsonMode)) == [jsonMode] && SettledTokens(Attempt(est, jsonMode)) == 0
    ensures Posts([Settled(settled)]) == [] && SettledTokens([Settled(settled)]) == settled
    ensures Wasted(est, jsonMode) == Attempt(est, jsonMode) + [Settled(0)]
  {
    var s := [Settled(settled)];
    assert s[1..] == [];
    var ops := Attempt(est, jsonMode);
    assert ops[1..] == [Posted(jsonMode)] && [Posted(jsonMode)][1..] == [];
    assert Posts([Posted(jsonMode)]) == [jsonMode] && SettledTokens([Posted(jsonMode)]) == 0;
  }

  lemma {:induction false} WastedOps(est: nat, jsonMode: bool)
    ensures Posts(Wasted(est, jsonMode)) == [jsonMode] && SettledTokens(Wasted(est, jsonMode)) == 0
  {
    AttemptOps(est, jsonMode, 0);
    ConcatOps(Attempt(est, jsonMode), [Settled(0)]);
  }

  lemma {:induction false} StopOps(est: nat, jsonMode: bool, settled: Option<nat>)
    ensures var ops := Attempt(est, jsonMode) + (if settled.Some? then [Settled(settled.value)] else []);
            && Posts(ops) == [jsonMode] && EachSettledOnce(ops, settled.None?)
            && SettledTokens(ops) == if settled.Some? then settled.value else 0
  {
    if settled.Some? {
      AttemptOps(est, jsonMode, settled.value);
      ConcatOps(Attempt(est, jsonMode), [Settled(settled.value)]);
      var ops := Attempt(est, jsonMode) + [Settled(settled.value)];
      assert ops[3..] == [];
    } else {
      AttemptOps(est, jsonMode, 0);
      assert Attempt(est, jsonMode) + [] == Attempt(est, jsonMode);
    }
  }

  lemma {:induction false} WastedThenSettled(est: nat, jsonMode: bool, rest: seq<Op>, leaks: bool)
    requires EachSettledOnce(rest, leaks)
    ensures EachSettledOnce(Wasted(est, jsonMode) + rest, leaks)
  {
    assert (Wasted(est, jsonMode) + rest)[3..] == rest;
  }

  lemma {:induction false} ModeFirst(mode: bool, rest: seq<bool>)
    requires DropsOnce(rest) && (!mode ==> forall i :: 0 <= i < |rest| ==> !rest[i])
    ensures DropsOnce([mode] + rest)
  {
    forall i, j | 0 <= i < j < |[mode] + rest| && ([mode] + rest)[j] ensures ([mode] + rest)[i] {
      assert rest[j - 1];
    }
  }

  lemma {:induction false} JudgeFacts(r: Reply, jsonMode: bool, p: Prices, u: Usage)
    ensures match Judge(r, jsonMode, p, u)
            case Again(mode) => mode ==> jsonMode
            case Stop(settled, end, usage) =>
              && (settled.None? <==> Leaks(end))
              && TotalTokens(usage) == TotalTokens(u) + (if settled.Some? then settled.value else 0)
  {
  }

  /** Every reservation is for the estimate. */
  predicate Reserves(ops: seq<Op>, est: nat) {
    forall i :: 0 <= i < |ops| && ops[i].Reserved? ==> ops[i].tokens == est
  }

  lemma {:induction false} ChatReserves(reply: nat -> Reply, k: nat, retries: nat, jsonMode: bool, est: nat,
                                        p: Prices, u: Usage)
    ensures Reserves(ChatFrom(reply, k, retries, jsonMode, est, p, u).ops, est)
    decreases retries - k
  {
    if k < retries {
      match Judge(reply(k), jsonMode, p, u)
      case Again(mode) => ChatReserves(reply, k + 1, retries, mode, est, p, u);
      case Stop(_, _, _) =>
    }
  }

  /** What a chat that starts with this usage and mode must do. */
  predicate Accounts(t: Trace, tries: int, jsonMode: bool, u: Usage) {
    && |Posts(t.ops)| <= Max(0, tries)
    && EachSettledOnce(t.ops, Leaks(t.end))
    && DropsOnce(Posts(t.ops)) && (!jsonMode ==> forall i :: 0 <= i < |Posts(t.ops)| ==> !Posts(t.ops)[i])
    && TotalTokens(t.usage) == TotalTokens(u) + SettledTokens(t.ops)
  }

  lemma {:induction false} AgainAccounts(t: Trace, tries: int, jsonMode: bool, mode: bool, est: nat, u: Usage)
    requires Accounts(t, tries, mode, u) && (mode ==> jsonMode) && 0 <= tries
    ensures Accounts(Prepend(Wasted(est, jsonMode), t), tries + 1, jsonMode, u)
  {
    WastedOps(est, jsonMode);
    ConcatOps(Wasted(est, jsonMode), t.ops);
    WastedThenSettled(est, jsonMode, t.ops, Leaks(t.end));
    ModeFirst(jsonMode, Posts(t.ops));
  }

  /** One chat: at most `retries - k` posts, each with its own reservation, settled exactly once unless the last reply
      cannot be decoded or the request breaks; JSON mode is dropped at most once; and what is settled is what the usage
      grows by. */
  lemma {:induction false} ChatAccounts(reply: nat -> Reply, k: nat, retries: nat, jsonMode: bool, est: nat,
                                        p: Prices, u: Usage)
    ensures Accounts(ChatFrom(reply, k, retries, jsonMode, est, p, u), retries - k, jsonMode, u)
    decreases retries - k
  {
    if k < retries {
      JudgeFacts(reply(k), jsonMode, p, u);
      match Judge(reply(k), jsonMode, p, u)
      case Again(mode) =>
        ChatAccounts(reply, k + 1, retries, mode, est, p, u);
        AgainAccounts(ChatFrom(reply, k + 1, retries, mode, est, p, u), retries - k - 1, jsonMode, mode, est, u);
      case Stop(settled, end, usage) =>
        StopOps(est, jsonMode, settled);
    }
  }

  /** A reply that says nothing about the request: the connection broke, the server failed, or it asks for a pause of
      at most five minutes. */
  predicate Transient(r: Reply) {
    r.TransportError? ||
    (r.Http? && (r.status == 429 || r.status >= 500) && r.retryAfter.Seconds? &&
        (r.status == 429 ==> r.retryAfter.n <= 300.0))
  }

  predicate Answers(r: Reply, text: string) {
    r.Http? && r.status == 200 && r.body.Decoded? && r.body.content == Some(text)
  }

  /** A refusal of JSON mode. */
  predicate RefusesJson(r: Reply) {
    r.Http? && r.status == 400 && r.failedToGenerateJson
  }

  /** A reply after which the reservation stays as it is: the request broke other than in transport, or the body of a
      success cannot be decoded. */
  predicate Unsettling(r: Reply) {
    r.OtherFault? || (r.Http? && r.status == 200 && r.body.Undecodable?)
  }

  /** The chat goes on after reply `i`: it is transient, or the first refusal of JSON mode. */
  predicate PassedOver(reply: nat -> Reply, k: nat, jsonMode: bool, i: nat) {
    || Transient(reply(i))
    || (jsonMode && RefusesJson(reply(i)) && Unrefused(reply, k, i))
  }

  /** The chat gets as far as reply `j`. */
  predicate Reads(reply: nat -> Reply, k: nat, jsonMode: bool, j: nat) {
    k <= j && forall i: nat :: k <= i < j ==> PassedOver(reply, k, jsonMode, i)
  }

  /** A reply that is read within the retries leaves its reservation unsettled. */
  predicate BreaksAt(reply: nat -> Reply, k: nat, retries: nat, jsonMode: bool, j: nat) {
    j < retries && Reads(reply, k, jsonMode, j) && Unsettling(reply(j))
  }

  lemma {:induction false} JudgePassesOver(r: Reply, jsonMode: bool, p: Prices, u: Usage)
    ensures match Judge(r, jsonMode, p, u)
            case Again(mode) => if Transient(r) then mode == jsonMode && !RefusesJson(r)
                                else jsonMode && RefusesJson(r) && !mode
            case Stop(_, end, _) => !Transient(r) && !(jsonMode && RefusesJson(r)) && (Leaks(end) <==> Unsettling(r))
  {
    match r
    case TransportError =>
    case OtherFault =>
    case Http(status, retryAfter, failedToGenerateJson, body) =>
      assert Transient(r) ==> status != 400 && status != 200;
  }

  /** No reply before `i` refuses JSON mode. */
  predicate Unrefused(reply: nat -> Reply, k: nat, i: nat) {
    forall h: nat :: k <= h < i ==> !RefusesJson(reply(h))
  }

  lemma {:induction false} RefusedOnce(reply: nat -> Reply, k: nat, i: nat)
    requires k < i
    ensures Unrefused(reply, k, i) <==> !RefusesJson(reply(k)) && Unrefused(reply, k + 1, i)
  {
    assert Unrefused(reply, k, i) ==> !RefusesJson(reply(k));
  }

  lemma {:induction false} ReadsOn(reply: nat -> Reply, k: nat, jsonMode: bool, mode: bool, j: nat)
    requires k < j
    requires if Transient(reply(k)) then mode == jsonMode && !RefusesJson(reply(k))
             else jsonMode && RefusesJson(reply(k)) && !mode
    ensures Reads(reply, k, jsonMode, j) <==> Reads(reply, k + 1, mode, j)
  {
    var next := k + 1;
    if Reads(reply, k, jsonMode, j) {
      forall i: nat | next <= i < j ensures PassedOver(reply, next, mode, i) {
        RefusedOnce(reply, k, i);
        assert PassedOver(reply, k, jsonMode, i);
      }
    }
    if Reads(reply, k + 1, mode, j) {
      forall i: nat | k <= i < j ensures PassedOver(reply, k, jsonMode, i) {
        if k < i {
          RefusedOnce(reply, k, i);
          assert PassedOver(reply, next, mode, i);
        }
      }
    }
  }

  /** Post `i` asks for JSON mode exactly if no reply so far has refused it. */
  ghost predicate AsksForJson(posts: seq<bool>, reply: nat -> Reply, k: nat, jsonMode: bool) {
    forall i :: 0 <= i < |posts| ==> (posts[i] <==> jsonMode && Unrefused(reply, k, k + i))
  }

  lemma {:induction false} PostsAskForJson(reply: nat -> Reply, k: nat, retries: nat, jsonMode: bool, est: nat,
                                           p: Prices, u: Usage)
    ensures AsksForJson(Posts(ChatFrom(reply, k, retries, jsonMode, est, p, u).ops), reply, k, jsonMode)
    decreases retries - k
  {
    if k < retries {
      JudgePassesOver(reply(k), jsonMode, p, u);
      match Judge(reply(k), jsonMode, p, u)
      case Again(mode) =>
        var next := k + 1;
        var rest := ChatFrom(reply, next, retries, mode, est, p, u).ops;
        PostsAskForJson(reply, next, retries, mode, est, p, u);
        WastedOps(est, jsonMode);
        ConcatOps(Wasted(est, jsonMode), rest);
        AskOneMore(Posts(rest), reply, k, jsonMode, mode);
      case Stop(settled, _, _) =>
        StopOps(est, jsonMode, settled);
    }
  }

  lemma {:induction false} AskOneMore(posts: seq<bool>, reply: nat -> Reply, k: nat, jsonMode: bool, mode: bool)
    requires AsksForJson(posts, reply, k + 1, mode)
    requires if Transient(reply(k)) then mode == jsonMode && !RefusesJson(reply(k))
             else jsonMode && RefusesJson(reply(k)) && !mode
    ensures AsksForJson([jsonMode] + posts, reply, k, jsonMode)
  {
    var all := [jsonMode] + posts;
    forall i | 0 <= i < |all| ensures all[i] <==> jsonMode && Unrefused(reply, k, k + i) {
      if i > 0 {
        RefusedOnce(reply, k, k + i);
        assert all[i] == posts[i - 1] && k + i == k + 1 + (i - 1);
      }
    }
  }

  lemma {:induction false} LeaksByReply(reply: nat -> Reply, k: nat, retries: nat, jsonMode: bool, est: nat, p: Prices,
                                        u: Usage)
    ensures Leaks(ChatFrom(reply, k, retries, jsonMode, est, p, u).end) <==>
            exists j: nat :: BreaksAt(reply, k, retries, jsonMode, j)
    decreases retries - k
  {
    if k < retries {
      JudgePassesOver(reply(k), jsonMode, p, u);
      match Judge(reply(k), jsonMode, p, u)
      case Again(mode) =>
        var next := k + 1;
        LeaksByReply(reply, next, retries, mode, est, p, u);
        if j: nat :| BreaksAt(reply, k, retries, jsonMode, j) {
          assert j != k;
          ReadsOn(reply, k, jsonMode, mode, j);
          assert BreaksAt(reply, next, retries, mode, j);
        }
        if j: nat :| BreaksAt(reply, next, retries, mode, j) {
          ReadsOn(reply, k, jsonMode, mode, j);
          assert BreaksAt(reply, k, retries, jsonMode, j);
        }
      case Stop(settled, end, usage) =>
        assert !PassedOver(reply, k, jsonMode, k);
        assert BreaksAt(reply, k, retries, jsonMode, k) <==> Unsettling(reply(k));
    }
  }

  /** No sequence of operations is settled both with and without a final leak. */
  lemma {:induction false} SettledOneWay(ops: seq<Op>)
    ensures !EachSettledOnce(ops, true) || !EachSettledOnce(ops, false)
  {
    if |ops| >= 3 {
      SettledOneWay(ops[3..]);
    }
  }

  lemma {:induction false} SettledUnlessLeak(ops: seq<Op>, leaks: bool)
    requires EachSettledOnce(ops, leaks)
    ensures EachSettledOnce(ops, false) <==> !leaks
  {
    SettledOneWay(ops);
  }

  /** A chat settles each of its reservations exactly once exactly unless some reply within the retries breaks the
      request or cannot be decoded, and every reply before it is transient or the first refusal of JSON mode. */
  lemma {:induction false} SettlesExactly(reply: nat -> Reply, k: nat, retries: nat, jsonMode: bool, est: nat,
                                          p: Prices, u: Usage)
    ensures EachSettledOnce(ChatFrom(reply, k, retries, jsonMode, est, p, u).ops, false) <==>
            !exists j: nat :: BreaksAt(reply, k, retries, jsonMode, j)
  {
    var t := ChatFrom(reply, k, retries, jsonMode, est, p, u);
    ChatAccounts(reply, k, retries, jsonMode, est, p, u);
    LeaksByReply(reply, k, retries, jsonMode, est, p, u);
    SettledUnlessLeak(t.ops, Leaks(t.end));
  }

  /** A chat survives transient trouble: if reply `j`, within the retries, holds an answer and all replies before it are
      transient, the chat returns that answer after `j + 1` posts in JSON mode, charged for that reply alone. */
  lemma {:induction false} ChatSurvivesTransients(reply: nat -> Reply, k: nat, j: nat, retries: nat, est: nat,
                                                  p: Prices, u: Usage, text: string)
    requires k <= j < retries && Answers(reply(j), text)
    requires forall i: nat :: k <= i < j ==> Transient(reply(i))
    ensures var t := ChatFrom(reply, k, retries, true, est, p, u);
            && t.end == Text(text) && |Posts(t.ops)| == j + 1 - k
            && t.usage == Charge(u, p, reply(j).body.prompt, reply(j).body.completion)
    decreases j - k
  {
    if k < j {
      assert Transient(reply(k));
      ChatSurvivesTransients(reply, k + 1, j, retries, est, p, u, text);
      WastedOps(est, true);
      ConcatOps(Wasted(est, true), ChatFrom(reply, k + 1, retries, true, est, p, u).ops);
    } else {
      StopOps(est, true, Some(reply(j).body.prompt + reply(j).body.completion));
    }
  }

  /** If nothing but transient trouble comes, all retries are used and the usage stays as it was. */
  lemma {:induction false} OnlyTransientsExhaust(reply: nat -> Reply, k: nat, retries: nat, est: nat, p: Prices,
                                        u: Usage)
    requires k <= retries && forall i: nat :: k <= i < retries ==> Transient(reply(i))
    ensures var t := ChatFrom(reply, k, retries, true, est, p, u);
            t.end == Failed(RetriesExhausted) && |Posts(t.ops)| == retries - k && t.usage == u
    decreases retries - k
  {
    if k < retries {
      assert Transient(reply(k));
      OnlyTransientsExhaust(reply, k + 1, retries, est, p, u);
      WastedOps(est, true);
      ConcatOps(Wasted(est, true), ChatFrom(reply, k + 1, retries, true, est, p, u).ops);
    }
  }

  /** When JSON mode is refused, one retry without it may still answer. */
  lemma {:induction false} JsonModeRetry(reply: nat -> Reply, k: nat, retries: nat, est: nat, p: Prices, u: Usage,
                                        text: string)
    requires k + 1 < retries && Answers(reply(k + 1), text)
    requires reply(k).Http? && reply(k).status == 400 && reply(k).failedToGenerateJson
    ensures var t := ChatFrom(reply, k, retries, true, est, p, u);
            t.end == Text(text) && Posts(t.ops) == [true, false]
  {
    var rest := ChatFrom(reply, k + 1, retries, false, est, p, u);
    StopOps(est, false, Some(reply(k + 1).body.prompt + reply(k + 1).body.completion));
    WastedOps(est, true);
    ConcatOps(Wasted(est, true), rest.ops);
  }

  lemma {:induction false} ChargeKeepsPrices(u: Usage, p: Prices, prompt: nat, completion: nat)
    requires Priced(u, p)
    ensures Priced(Charge(u, p, prompt, completion), p)
  {
    var pt, ct := u.promptTokens as real, u.completionTokens as real;
    assert (pt + prompt as real) * p.input == pt * p.input + prompt as real * p.input;
    assert (ct + completion as real) * p.output == ct * p.output + completion as real * p.output;
  }

  lemma {:induction false} ChatKeepsPrices(reply: nat -> Reply, k: nat, retries: nat, jsonMode: bool, est: nat,
                                        p: Prices, u: Usage)
    requires Priced(u, p)
    ensures Priced(ChatFrom(reply, k, retries, jsonMode, est, p, u).usage, p)
    decreases retries - k
  {
    if k < retries {
      match Judge(reply(k), jsonMode, p, u)
      case Again(mode) => ChatKeepsPrices(reply, k + 1, retries, mode, est, p, u);
      case Stop(_, _, _) =>
        if reply(k).Http? && reply(k).body.Decoded? {
          ChargeKeepsPrices(u, p, reply(k).body.prompt, reply(k).body.completion);
        }
    }
  }

  // ----- A JSON call: at most two chats -----

  /** One call: its cache key, the estimates for the first and the second prompt, the replies to the two chats, and
      whether a text holds JSON that fits the schema. */
  datatype Call = Call(key: string, est: nat, estAgain: nat, first: nat -> Reply, second: nat -> Reply,
      fits: string -> bool)

  datatype Completed = Completed(ops: seq<Op>, end: End, usage: Usage, lastCharge: nat,
      cache: Cache)

  predicate CacheHit(c: Call, cache: Cache) {
    cache.Some? && c.key in cache.value && cache.value[c.key] != "" && c.fits(cache.value[c.key])
  }

  function Remember(cache: Cache, key: string, text: string): Cache {
    if cache.Some? then Some(cache.value[key := text]) else None
  }

  /** The second chat, after a first answer that did not fit. */
  function SecondRound(c: Call, t: Trace, again: Trace, cache: Cache): Completed {
    var ops := t.ops + again.ops;
    var charge := if again.ops == [] then SettledTokens(t.ops) else SettledTokens(again.ops);
    if again.end.Failed? then Completed(ops, again.end, again.usage, charge, cache)
    else if c.fits(again.end.text) then
      Completed(ops, again.end, again.usage, charge, Remember(cache, c.key, again.end.text))
    else Completed(ops, Failed(InvalidTwice), again.usage, charge, cache)
  }

  /** A call whose first and second chat go as given. */
  function Conclude(c: Call, t: Trace, again: Trace, cache: Cache): Completed {
    if t.end.Failed? then Completed(t.ops, t.end, t.usage, SettledTokens(t.ops), cache)
    else if c.fits(t.end.text) then
      Completed(t.ops, t.end, t.usage, SettledTokens(t.ops), Remember(cache, c.key, t.end.text))
    else SecondRound(c, t, again, cache)
  }

  function Complete(c: Call, retries: nat, budget: int, p: Prices, u: Usage,
                    cache: Cache): Completed {
    if CacheHit(c, cache) then
      Completed([], Text(cache.value[c.key]), u.(cacheHits := u.cacheHits + 1), 0, cache)
    else
      var t := ChatTrace(c.first, retries, budget, c.est, p, u);
      Conclude(c, t, ChatTrace(c.second, retries, budget, c.estAgain, p, t.usage), cache)
  }

  lemma {:induction false} SettledConcat(a: seq<Op>, b: seq<Op>, leaks: bool)
    requires EachSettledOnce(a, false) && EachSettledOnce(b, leaks)
    ensures EachSettledOnce(a + b, leaks)
  {
    if a == [] {
      assert a + b == b;
    } else {
      assert (a + b)[3..] == a[3..] + b;
      SettledConcat(a[3..], b, leaks);
    }
  }

  lemma {:induction false} ChatTraceAccounts(reply: nat -> Reply, retries: nat, budget: int, est: nat, p: Prices,
                                        u: Usage)
    ensures Accounts(ChatTrace(reply, retries, budget, est, p, u), retries, true, u)
    ensures ChatTrace(reply, retries, budget, est, p, u).ops != [] ==> TotalTokens(u) < budget
  {
    ChatAccounts(reply, 0, retries, true, est, p, u);
  }

  lemma {:induction false} TwoChats(t: Trace, again: Trace, retries: nat, u: Usage)
    requires Accounts(t, retries, true, u) && Accounts(again, retries, true, t.usage) && !Leaks(t.end)
    ensures |Posts(t.ops + again.ops)| <= 2 * retries
    ensures EachSettledOnce(t.ops + again.ops, Leaks(again.end))
    ensures TotalTokens(again.usage) == TotalTokens(u) + SettledTokens(t.ops + again.ops)
  {
    SettledConcat(t.ops, again.ops, Leaks(again.end));
    ConcatOps(t.ops, again.ops);
  }

  predicate CallAccounts(r: Completed, retries: nat, u: Usage) {
    && |Posts(r.ops)| <= 2 * retries
    && EachSettledOnce(r.ops, Leaks(r.end))
    && TotalTokens(r.usage) == TotalTokens(u) + SettledTokens(r.ops)
  }

  /** The last charge was made from below the budget. */
  predicate ChargedWithinBudget(r: Completed, budget: int, u: Usage) {
    || (TotalTokens(r.usage) == TotalTokens(u) && r.lastCharge == 0)
    || (r.lastCharge <= TotalTokens(r.usage) && TotalTokens(r.usage) - r.lastCharge < budget)
  }

  lemma {:induction false} ConcludeAccounts(c: Call, t: Trace, again: Trace, cache: Cache,
                                            retries: nat, budget: int, u: Usage)
    requires Accounts(t, retries, true, u) && Accounts(again, retries, true, t.usage)
    requires t.ops != [] ==> TotalTokens(u) < budget
    requires again.ops != [] ==> TotalTokens(t.usage) < budget
    ensures CallAccounts(Conclude(c, t, again, cache), retries, u)
    ensures ChargedWithinBudget(Conclude(c, t, again, cache), budget, u)
  {
    assert t.ops == [] ==> SettledTokens(t.ops) == 0;
    if t.end.Text? && !c.fits(t.end.text) {
      SecondRoundAccounts(c, t, again, cache, retries, budget, u);
    }
  }

  lemma {:induction false} SecondRoundAccounts(c: Call, t: Trace, again: Trace, cache: Cache,
                                               retries: nat, budget: int, u: Usage)
    requires Accounts(t, retries, true, u) && Accounts(again, retries, true, t.usage) && t.end.Text?
    requires t.ops != [] ==> TotalTokens(u) < budget
    requires again.ops != [] ==> TotalTokens(t.usage) < budget
    ensures CallAccounts(SecondRound(c, t, again, cache), retries, u)
    ensures ChargedWithinBudget(SecondRound(c, t, again, cache), budget, u)
  {
    TwoChats(t, again, retries, u);
    SecondRoundParts(c, t, again, cache);
    SecondCharge(t, again, retries, budget, u);
  }

  lemma {:induction false} SecondRoundParts(c: Call, t: Trace, again: Trace, cache: Cache)
    ensures var r := SecondRound(c, t, again, cache);
            && r.ops == t.ops + again.ops && r.usage == again.usage && Leaks(r.end) == Leaks(again.end)
            && r.lastCharge == (if again.ops == [] then SettledTokens(t.ops) else SettledTokens(again.ops))
  {
    assert again.end.Text? ==> !Leaks(again.end);
  }

  lemma {:induction false} SecondCharge(t: Trace, again: Trace, retries: nat, budget: int, u: Usage)
    requires Accounts(t, retries, true, u) && Accounts(again, retries, true, t.usage)
    requires t.ops != [] ==> TotalTokens(u) < budget
    requires again.ops != [] ==> TotalTokens(t.usage) < budget
    ensures var charge := if again.ops == [] then SettledTokens(t.ops) else SettledTokens(again.ops);
            || (TotalTokens(again.usage) == TotalTokens(u) && charge == 0)
            || (charge <= TotalTokens(again.usage) && TotalTokens(again.usage) - charge < budget)
  {
    if again.ops == [] {
      assert SettledTokens(again.ops) == 0;
      if t.ops == [] {
        assert SettledTokens(t.ops) == 0;
      }
    }
  }

  /** A JSON call posts at most twice the retries, settles every reservation exactly once unless it ends in a leak,
      counts exactly the settled tokens, and makes its last charge from below the budget. */
  lemma {:induction false} CompleteAccounts(c: Call, retries: nat, budget: int, p: Prices, u: Usage,
                                        cache: Cache)
    ensures CallAccounts(Complete(c, retries, budget, p, u, cache), retries, u)
    ensures ChargedWithinBudget(Complete(c, retries, budget, p, u, cache), budget, u)
  {
    if CacheHit(c, cache) {
      assert Posts([]) == [] && SettledTokens([]) == 0;
    } else {
      var t := ChatTrace(c.first, retries, budget, c.est, p, u);
      var again := ChatTrace(c.second, retries, budget, c.estAgain, p, t.usage);
      ChatTraceAccounts(c.first, retries, budget, c.est, p, u);
      ChatTraceAccounts(c.second, retries, budget, c.estAgain, p, t.usage);
      ConcludeAccounts(c, t, again, cache, retries, budget, u);
    }
  }

  /** The first chat of the call ends with reply `j`, an answer that does not fit. */
  predicate UnfitAt(c: Call, retries: nat, j: nat) {
    && j < retries && Reads(c.first, 0, true, j)
    && c.first(j).Http? && c.first(j).status == 200 && c.first(j).body.Decoded?
    && c.first(j).body.content.Some? && !c.fits(c.first(j).body.content.value)
  }

  lemma {:induction false} AnswerEnds(reply: nat -> Reply, k: nat, retries: nat, jsonMode: bool, est: nat, p: Prices,
                                      u: Usage, j: nat)
    requires j < retries && Reads(reply, k, jsonMode, j)
    requires reply(j).Http? && reply(j).status == 200 && reply(j).body.Decoded? && reply(j).body.content.Some?
    ensures var t := ChatFrom(reply, k, retries, jsonMode, est, p, u);
            && t.end == Text(reply(j).body.content.value)
            && t.usage == Charge(u, p, reply(j).body.prompt, reply(j).body.completion)
    decreases j - k
  {
    if k < j {
      assert PassedOver(reply, k, jsonMode, k);
      JudgePassesOver(reply(k), jsonMode, p, u);
      var mode := Judge(reply(k), jsonMode, p, u).jsonMode;
      ReadsOn(reply, k, jsonMode, mode, j);
      AnswerEnds(reply, k + 1, retries, mode, est, p, u, j);
    }
  }

  lemma {:induction false} TextWasRead(reply: nat -> Reply, k: nat, retries: nat, jsonMode: bool, est: nat, p: Prices,
                                       u: Usage) returns (j: nat)
    requires ChatFrom(reply, k, retries, jsonMode, est, p, u).end.Text?
    ensures j < retries && Reads(reply, k, jsonMode, j)
    ensures reply(j).Http? && reply(j).status == 200 && reply(j).body.Decoded? && reply(j).body.content.Some?
    decreases retries - k
  {
    JudgePassesOver(reply(k), jsonMode, p, u);
    match Judge(reply(k), jsonMode, p, u)
    case Again(mode) =>
      j := TextWasRead(reply, k + 1, retries, mode, est, p, u);
      ReadsOn(reply, k, jsonMode, mode, j);
    case Stop(_, _, _) =>
      j := k;
  }

  /** A call leaves a reservation unsettled: it is not answered from the cache, the budget is open, and the first chat
      breaks, or ends with an unfit answer that leaves the budget open for a second one that breaks. */
  predicate CallBreaks(c: Call, retries: nat, budget: int, u: Usage, cache: Cache) {
    && !CacheHit(c, cache) && TotalTokens(u) < budget
    && (|| (exists j: nat :: j < retries && BreaksAt(c.first, 0, retries, true, j))
        || ((exists i: nat :: i < retries && BreaksAt(c.second, 0, retries, true, i)) &&
            exists j: nat :: j < retries && UnfitAt(c, retries, j) &&
              TotalTokens(u) + c.first(j).body.prompt + c.first(j).body.completion < budget))
  }

  lemma {:induction false} SecondIsAsked(c: Call, retries: nat, budget: int, p: Prices, u: Usage)
    requires TotalTokens(u) < budget
    ensures var t := ChatTrace(c.first, retries, budget, c.est, p, u);
            (t.end.Text? && !c.fits(t.end.text) && TotalTokens(t.usage) < budget) <==>
            exists j: nat :: j < retries && UnfitAt(c, retries, j) &&
              TotalTokens(u) + c.first(j).body.prompt + c.first(j).body.completion < budget
  {
    var t := ChatTrace(c.first, retries, budget, c.est, p, u);
    forall j: nat | UnfitAt(c, retries, j)
      ensures t.end == Text(c.first(j).body.content.value)
      ensures TotalTokens(t.usage) == TotalTokens(u) + c.first(j).body.prompt + c.first(j).body.completion
    {
      AnswerEnds(c.first, 0, retries, true, c.est, p, u, j);
    }
    if t.end.Text? {
      var j := TextWasRead(c.first, 0, retries, true, c.est, p, u);
      AnswerEnds(c.first, 0, retries, true, c.est, p, u, j);
      assert !c.fits(t.end.text) ==> UnfitAt(c, retries, j);
    }
  }

  /** A JSON call settles each of its reservations exactly once exactly unless it breaks in this way. */
  lemma {:induction false} CallSettlesExactly(c: Call, retries: nat, budget: int, p: Prices, u: Usage, cache: Cache)
    ensures EachSettledOnce(Complete(c, retries, budget, p, u, cache).ops, false) <==>
            !CallBreaks(c, retries, budget, u, cache)
  {
    var r := Complete(c, retries, budget, p, u, cache);
    CompleteAccounts(c, retries, budget, p, u, cache);
    SettledUnlessLeak(r.ops, Leaks(r.end));
    if !CacheHit(c, cache) && TotalTokens(u) < budget {
      var t := ChatTrace(c.first, retries, budget, c.est, p, u);
      LeaksByReply(c.first, 0, retries, true, c.est, p, u);
      LeaksByReply(c.second, 0, retries, true, c.estAgain, p, t.usage);
      SecondIsAsked(c, retries, budget, p, u);
      SecondRoundParts(c, t, ChatTrace(c.second, retries, budget, c.estAgain, p, t.usage), cache);
      assert forall j: nat :: BreaksAt(c.first, 0, retries, true, j) ==> j < retries;
      assert forall j: nat :: BreaksAt(c.second, 0, retries, true, j) ==> j < retries;
    }
  }

  lemma {:induction false} CompleteKeepsPrices(c: Call, retries: nat, budget: int, p: Prices, u: Usage,
                                        cache: Cache)
    requires Priced(u, p)
    ensures Priced(Complete(c, retries, budget, p, u, cache).usage, p)
  {
    if !CacheHit(c, cache) {
      var t := ChatTrace(c.first, retries, budget, c.est, p, u);
      ChatKeepsPrices(c.first, 0, retries, true, c.est, p, u);
      if t.end.Text? && !c.fits(t.end.text) {
        ChatKeepsPrices(c.second, 0, retries, true, c.estAgain, p, t.usage);
      }
    }
  }

  /** A JSON call reserves its first estimate throughout its first chat, and its second throughout its second. */
  lemma {:induction false} CallReserves(c: Call, retries: nat, budget: int, p: Prices, u: Usage, cache: Cache)
    ensures exists a, b :: Complete(c, retries, budget, p, u, cache).ops == a + b && Reserves(a, c.est) &&
              Reserves(b, c.estAgain)
  {
    var t := ChatTrace(c.first, retries, budget, c.est, p, u);
    var again := ChatTrace(c.second, retries, budget, c.estAgain, p, t.usage);
    ChatReserves(c.first, 0, retries, true, c.est, p, u);
    ChatReserves(c.second, 0, retries, true, c.estAgain, p, t.usage);
    var ops := Complete(c, retries, budget, p, u, cache).ops;
    var none: seq<Op> := [];
    assert Reserves(none, c.est) && Reserves(none, c.estAgain) && none + none == none && t.ops + none == t.ops;
    assert ops == none + none || ops == t.ops + none || ops == t.ops + again.ops;
  }

  // ----- What a chat and a call return -----

  /** Reply `j` is the first that the chat does not pass over, within the retries. */
  predicate DecidedBy(reply: nat -> Reply, k: nat, retries: nat, jsonMode: bool, j: nat) {
    j < retries && Reads(reply, k, jsonMode, j) && !PassedOver(reply, k, jsonMode, j)
  }

  /** How a reply that is not passed over ends the chat. */
  predicate EndsAs(r: Reply, e: End) {
    match r
    case TransportError => false
    case OtherFault => e == Failed(Fault)
    case Http(status, retryAfter, _, body) =>
      if status == 429 || status >= 500 then
        e == Failed(if retryAfter.Malformed? then BadHeader else RateLimitExhausted)
      else if status != 200 then e == Failed(HttpStatus(status))
      else if body.Undecodable? then e == Failed(NoJsonBody)
      else if body.content.None? then e == Failed(NoChoice)
      else e == Text(body.content.value)
  }

  /** The usage after a decoded reply: one more request, its tokens, and their price. */
  predicate ChargedFor(before: Usage, after: Usage, p: Prices, prompt: nat, completion: nat) {
    && after.requests == before.requests + 1 && after.cacheHits == before.cacheHits
    && after.promptTokens == before.promptTokens + prompt
    && after.completionTokens == before.completionTokens + completion
    && (after.cost - before.cost) * 1000000.0 == prompt as real * p.input + completion as real * p.output
  }

  /** A chat ends as the first reply says that it does not pass over, and is charged for it if it could be decoded; and
      if it passes over all replies within the retries, it fails for want of retries and is charged nothing. */
  lemma {:induction false} ChatEndsAsDecided(reply: nat -> Reply, k: nat, retries: nat, jsonMode: bool, est: nat,
                                             p: Prices, u: Usage)
    ensures var t := ChatFrom(reply, k, retries, jsonMode, est, p, u);
            && (forall j: nat :: DecidedBy(reply, k, retries, jsonMode, j) ==>
                  && EndsAs(reply(j), t.end)
                  && if reply(j).Http? && reply(j).status == 200 && reply(j).body.Decoded?
                     then ChargedFor(u, t.usage, p, reply(j).body.prompt, reply(j).body.completion) else t.usage == u)
            && ((forall j: nat :: !DecidedBy(reply, k, retries, jsonMode, j)) ==>
                  t.end == Failed(RetriesExhausted) && t.usage == u)
    decreases retries - k
  {
    if k < retries {
      JudgePassesOver(reply(k), jsonMode, p, u);
      match Judge(reply(k), jsonMode, p, u)
      case Again(mode) =>
        var next := k + 1;
        ChatEndsAsDecided(reply, next, retries, mode, est, p, u);
        assert PassedOver(reply, k, jsonMode, k);
        forall j: nat
          ensures DecidedBy(reply, k, retries, jsonMode, j) <==> DecidedBy(reply, next, retries, mode, j)
        {
          DecidedOn(reply, k, retries, jsonMode, mode, j);
        }
      case Stop(_, end, usage) =>
        assert !PassedOver(reply, k, jsonMode, k);
        StopEnds(reply(k), jsonMode, p, u);
        assert DecidedBy(reply, k, retries, jsonMode, k);
        forall j: nat | DecidedBy(reply, k, retries, jsonMode, j) ensures j == k {
          assert k < j ==> PassedOver(reply, k, jsonMode, k);
        }
    }
  }

  lemma {:induction false} StopEnds(r: Reply, jsonMode: bool, p: Prices, u: Usage)
    requires Judge(r, jsonMode, p, u).Stop?
    ensures EndsAs(r, Judge(r, jsonMode, p, u).end)
    ensures if r.Http? && r.status == 200 && r.body.Decoded?
            then ChargedFor(u, Judge(r, jsonMode, p, u).usage, p, r.body.prompt, r.body.completion)
            else Judge(r, jsonMode, p, u).usage == u
  {
  }

  lemma {:induction false} DecidedOn(reply: nat -> Reply, k: nat, retries: nat, jsonMode: bool, mode: bool, j: nat)
    requires PassedOver(reply, k, jsonMode, k)
    requires if Transient(reply(k)) then mode == jsonMode && !RefusesJson(reply(k))
             else jsonMode && RefusesJson(reply(k)) && !mode
    ensures DecidedBy(reply, k, retries, jsonMode, j) <==> DecidedBy(reply, k + 1, retries, mode, j)
  {
    if k < j {
      ReadsOn(reply, k, jsonMode, mode, j);
      RefusedOnce(reply, k, j);
    }
  }

  /** The first chat that reads these replies answers with `text`, at this price in tokens. */
  predicate Says(reply: nat -> Reply, retries: nat, text: string, tokens: nat) {
    exists j: nat :: j < retries && DecidedBy(reply, 0, retries, true, j) && Answers(reply(j), text) &&
      tokens == reply(j).body.prompt + reply(j).body.completion
  }

  lemma {:induction false} ChatSays(reply: nat -> Reply, retries: nat, budget: int, est: nat, p: Prices, u: Usage,
                                    text: string)
    ensures var t := ChatTrace(reply, retries, budget, est, p, u);
            && (t.end == Text(text) <==> TotalTokens(u) < budget && exists n: nat :: Says(reply, retries, text, n))
            && (forall n: nat :: TotalTokens(u) < budget && Says(reply, retries, text, n) ==>
                  TotalTokens(t.usage) == TotalTokens(u) + n)
  {
    ChatEndsAsDecided(reply, 0, retries, true, est, p, u);
    var t := ChatFrom(reply, 0, retries, true, est, p, u);
    if t.end == Text(text) {
      assert t.end != Failed(RetriesExhausted);
      var j: nat :| DecidedBy(reply, 0, retries, true, j);
      assert Says(reply, retries, text, reply(j).body.prompt + reply(j).body.completion);
    }
    forall n: nat | Says(reply, retries, text, n)
      ensures t.end == Text(text) && TotalTokens(t.usage) == TotalTokens(u) + n
    {
      var j: nat :| j < retries && DecidedBy(reply, 0, retries, true, j) && Answers(reply(j), text) &&
        n == reply(j).body.prompt + reply(j).body.completion;
      assert EndsAs(reply(j), t.end);
    }
  }

  /** The cache answers the call: it holds a text under the key that is not empty and fits. */
  predicate CacheAnswers(c: Call, cache: Cache, text: string) {
    cache.Some? && c.key in cache.value && cache.value[c.key] == text && text != "" && c.fits(text)
  }

  /** The model answers the call with a text that fits: at once, or after an unfit answer that leaves the budget
      open. */
  ghost predicate ModelAnswers(c: Call, retries: nat, budget: int, u: Usage, text: string) {
    && c.fits(text) && TotalTokens(u) < budget
    && (|| (exists n: nat :: Says(c.first, retries, text, n))
        || (exists unfit: string, n: nat :: Says(c.first, retries, unfit, n) && !c.fits(unfit) &&
              TotalTokens(u) + n < budget && exists m: nat :: Says(c.second, retries, text, m)))
  }

  /** Exactly when a JSON call returns which text: the one from the cache, or else the one of the model. */
  lemma {:induction false} CallReturnsExactly(c: Call, retries: nat, budget: int, p: Prices, u: Usage, cache: Cache,
                                              text: string)
    ensures Complete(c, retries, budget, p, u, cache).end == Text(text) <==>
            || CacheAnswers(c, cache, text)
            || ((forall hit :: !CacheAnswers(c, cache, hit)) && ModelAnswers(c, retries, budget, u, text))
  {
    if CacheHit(c, cache) {
      assert CacheAnswers(c, cache, cache.value[c.key]);
    } else {
      ModelReturns(c, retries, budget, p, u, cache, text);
    }
  }

  lemma {:induction false} ModelReturns(c: Call, retries: nat, budget: int, p: Prices, u: Usage, cache: Cache,
                                        text: string)
    requires !CacheHit(c, cache)
    ensures Complete(c, retries, budget, p, u, cache).end == Text(text) <==> ModelAnswers(c, retries, budget, u, text)
  {
    var t := ChatTrace(c.first, retries, budget, c.est, p, u);
    ChatSays(c.first, retries, budget, c.est, p, u, text);
    ChatSays(c.second, retries, budget, c.estAgain, p, t.usage, text);
    if t.end.Text? {
      ChatSays(c.first, retries, budget, c.est, p, u, t.end.text);
    }
    forall unfit: string, n: nat | TotalTokens(u) < budget && Says(c.first, retries, unfit, n)
      ensures t.end == Text(unfit) && TotalTokens(t.usage) == TotalTokens(u) + n
    {
      ChatSays(c.first, retries, budget, c.est, p, u, unfit);
    }
    SecondTurn(c, t, retries, budget, u, text);
  }

  /** What is left to the second chat. */
  lemma {:induction false} SecondTurn(c: Call, t: Trace, retries: nat, budget: int, u: Usage, text: string)
    requires forall unfit: string, n: nat :: TotalTokens(u) < budget && Says(c.first, retries, unfit, n) ==>
               t.end == Text(unfit) && TotalTokens(t.usage) == TotalTokens(u) + n
    requires t.end.Text? ==> TotalTokens(u) < budget && exists n: nat :: Says(c.first, retries, t.end.text, n)
    ensures ModelAnswers(c, retries, budget, u, text) <==>
            && c.fits(text) && t.end.Text?
            && (|| t.end.text == text
                || (!c.fits(t.end.text) && TotalTokens(t.usage) < budget &&
                    exists m: nat :: Says(c.second, retries, text, m)))
  {
    if t.end.Text? {
      var n: nat :| Says(c.first, retries, t.end.text, n);
      assert TotalTokens(t.usage) == TotalTokens(u) + n;
    }
  }

  /** A returned text always fits. With a cache, what the model returns is stored under the key, and nothing else
      changes in it: the next such call is answered with the same text. */
  lemma {:induction false} ReturnedTextFits(c: Call, retries: nat, budget: int, p: Prices, u: Usage, cache: Cache)
    ensures var r := Complete(c, retries, budget, p, u, cache);
            && (r.end.Text? ==> c.fits(r.end.text))
            && (r.cache.Some? <==> cache.Some?)
            && (cache.Some? && r.end.Text? && (forall hit :: !CacheAnswers(c, cache, hit)) ==>
                  && c.key in r.cache.value && r.cache.value[c.key] == r.end.text
                  && r.cache.value - {c.key} == cache.value - {c.key})
            && (r.end.Failed? || (exists hit :: CacheAnswers(c, cache, hit)) ==> r.cache == cache)
  {
    var r := Complete(c, retries, budget, p, u, cache);
    if CacheHit(c, cache) {
      assert CacheAnswers(c, cache, cache.value[c.key]);
    }
  }

  /** All calls of a session, one after the other, on a cache that starts as `cache`, filled or not, or is missing.
      Between the calls others who share it may change it: `shared` tells what the cache has become before a call. */
  function Session(calls: seq<Call>, retries: nat, budget: int, p: Prices, cache: Cache,
                   shared: (nat, Cache) -> Cache): Completed
  {
    if calls == [] then Completed([], Failed(InvalidTwice), NO_USAGE, 0, cache)
    else
      var n := |calls| - 1;
      var before := Session(calls[..n], retries, budget, p, cache, shared);
      Continue(before, Complete(calls[n], retries, budget, p, before.usage, shared(n, before.cache)))
  }

  predicate SessionAccounts(s: Completed, budget: int) {
    && (TotalTokens(s.usage) == 0 || TotalTokens(s.usage) - s.lastCharge < budget)
    && s.lastCharge <= TotalTokens(s.usage) == SettledTokens(s.ops)
  }

  function Continue(before: Completed, r: Completed): Completed {
    r.(ops := before.ops + r.ops, lastCharge := if r.lastCharge == 0 then before.lastCharge else r.lastCharge)
  }

  lemma {:induction false} ContinueAccounts(before: Completed, r: Completed, retries: nat, budget: int)
    requires SessionAccounts(before, budget)
    requires CallAccounts(r, retries, before.usage) && ChargedWithinBudget(r, budget, before.usage)
    ensures SessionAccounts(Continue(before, r), budget)
  {
    ConcatOps(before.ops, r.ops);
  }

  /** Under sequential use, whatever the cache holds, the session never goes further beyond the budget than its last
      charged reply, and it has counted exactly what was settled. */
  lemma {:induction false} BudgetHolds(calls: seq<Call>, retries: nat, budget: int, p: Prices, cache: Cache,
                                       shared: (nat, Cache) -> Cache)
    ensures SessionAccounts(Session(calls, retries, budget, p, cache, shared), budget)
  {
    if calls == [] {
      assert SettledTokens([]) == 0;
    } else {
      var n := |calls| - 1;
      var before := Session(calls[..n], retries, budget, p, cache, shared);
      var seen := shared(n, before.cache);
      BudgetHolds(calls[..n], retries, budget, p, cache, shared);
      CompleteAccounts(calls[n], retries, budget, p, before.usage, seen);
      ContinueAccounts(before, Complete(calls[n], retries, budget, p, before.usage, seen), retries, budget);
    }
  }

  /** The cost of a session is the price of the tokens it counted. */
  lemma {:induction false} SessionIsPriced(calls: seq<Call>, retries: nat, budget: int, p: Prices, cache: Cache,
                                           shared: (nat, Cache) -> Cache)
    ensures Priced(Session(calls, retries, budget, p, cache, shared).usage, p)
  {
    if calls == [] {
      assert 0.0 * p.input + 0.0 * p.output == 0.0;
    } else {
      var n := |calls| - 1;
      var before := Session(calls[..n], retries, budget, p, cache, shared);
      SessionIsPriced(calls[..n], retries, budget, p, cache, shared);
      CompleteKeepsPrices(calls[n], retries, budget, p, before.usage, shared(n, before.cache));
    }
  }

  /** A call that succeeded is answered from the cache afterwards: the same text, no request, no tokens. */
  lemma {:induction false} CachedCallIsFree(c: Call, retries: nat, budget: int, p: Prices, u: Usage,
                                        cache: map<string, string>)
    requires Complete(c, retries, budget, p, u, Some(cache)).end.Text?
    requires Complete(c, retries, budget, p, u, Some(cache)).end.text != ""
    ensures var r := Complete(c, retries, budget, p, u, Some(cache));
            var again := Complete(c, retries, budget, p, r.usage, r.cache);
            && again.end == r.end && again.ops == [] && again.cache == r.cache
            && again.usage == r.usage.(cacheHits := r.usage.cacheHits + 1)
  {
  }

  // ----- The class -----

  class LlmClient {
    const budget: int
    const retries: nat
    const prices: Prices
    var usage: Usage
    var cache: Cache
    ghost var ops: seq<Op>

    constructor (budget: int, retries: nat, prices: Prices, cache: Cache)
      ensures this.budget == budget && this.retries == retries && this.prices == prices && this.cache == cache
      ensures usage == NO_USAGE && ops == []
    {
      this.budget, this.retries, this.prices, this.cache := budget, retries, prices, cache;
      usage, ops := NO_USAGE, [];
    }

    method Chat(reply: nat -> Reply, est: nat) returns (end: End)
      modifies this`usage, this`ops
      ensures var t := ChatTrace(reply, retries, budget, est, prices, old(usage));
              end == t.end && usage == t.usage && ops == old(ops) + t.ops
    {
      if TotalTokens(usage) >= budget {
        return Failed(BudgetExhausted);
      }
      ghost var whole := ChatFrom(reply, 0, retries, true, est, prices, usage);
      ghost var done: seq<Op> := [];
      var jsonMode := true;
      ghost var left := whole;
      for attempt := 0 to retries
        invariant usage == old(usage) && ops == old(ops) + done
        invariant left == ChatFrom(reply, attempt, retries, jsonMode, est, prices, usage) &&
            Prepend(done, left) == whole
      {
        match Judge(reply(attempt), jsonMode, prices, usage) {
          case Stop(settled, finish, charged) =>
            ConcatThree(old(ops), done, left.ops);
            ops, usage := ops + left.ops, charged;
            return finish;
          case Again(mode) =>
            ghost var wasted := Wasted(est, jsonMode);
            left := ChatFrom(reply, attempt + 1, retries, mode, est, prices, usage);
            ConcatThree(done, wasted, left.ops);
            ConcatThree(old(ops), done, wasted);
            ops, done := ops + wasted, done + wasted;
            jsonMode := mode;
        }
      }
      assert done + [] == done;
      return Failed(RetriesExhausted);
    }

    method CompleteJson(c: Call) returns (end: End)
      modifies this`usage, this`ops, this`cache
      ensures var r := Complete(c, retries, budget, prices, old(usage), old(cache));
              end == r.end && usage == r.usage && cache == r.cache && ops == old(ops) + r.ops
    {
      if CacheHit(c, cache) {
        usage := usage.(cacheHits := usage.cacheHits + 1);
        return Text(cache.value[c.key]);
      }
      end := Chat(c.first, c.est);
      if end.Failed? {
        return;
      }
      if c.fits(end.text) {
        cache := Remember(cache, c.key, end.text);
        return;
      }
      ghost var t := ChatTrace(c.first, retries, budget, c.est, prices, old(usage));
      end := Chat(c.second, c.estAgain);
      ConcatThree(old(ops), t.ops, ChatTrace(c.second, retries, budget, c.estAgain, prices, t.usage).ops);
      if end.Failed? {
        return;
      }
      if c.fits(end.text) {
        cache := Remember(cache, c.key, end.text);
        return;
      }
      return Failed(InvalidTwice);
    }
  }
}
