/** One-time tokens, consumed by any number of requests at once. Each request reads a
    row and later marks it by a conditional UPDATE that only an unused row satisfies. */
module Tokens {
  import opened Sums

  type TokenId = int
  type RequestId = int
  type Hash = int
  type Purpose = int
  type Instant = int

  datatype Token = Token(hash: Hash, purpose: Purpose, expiresAt: Instant, usedAt: Option<Instant>)

  /** Where a request is between its statements. */
  datatype Stage = Reading | Marking(token: TokenId) | Done(result: Option<TokenId>)

  datatype Request = Request(hash: Hash, purpose: Purpose, now: Instant, stage: Stage)

  datatype State<Rows, Requests> = State(tokens: Rows, requests: Requests)

  type World = State<map<TokenId, Token>, map<RequestId, Request>>

  /** What the SELECT looks for. */
  predicate Matches(t: Token, hash: Hash, purpose: Purpose) {
    t.hash == hash && t.purpose == purpose && t.usedAt.None?
  }

  /** A row the SELECT may return; hashes are not declared unique, so it may have a
      choice. None is the empty result. */
  ghost predicate Selectable(tokens: map<TokenId, Token>, hash: Hash, purpose: Purpose, choice: Option<TokenId>) {
    match choice
    case Some(id) => id in tokens && Matches(tokens[id], hash, purpose)
    case None => forall id :: id in tokens ==> !Matches(tokens[id], hash, purpose)
  }

  /** A row the SELECT may return but that has expired. */
  predicate Expired(tokens: map<TokenId, Token>, hash: Hash, purpose: Purpose, now: Instant, id: TokenId) {
    id in tokens && Matches(tokens[id], hash, purpose) && tokens[id].expiresAt < now
  }

  function Marked(tokens: map<TokenId, Token>, id: TokenId, now: Instant): map<TokenId, Token>
    requires id in tokens
  {
    tokens[id := tokens[id].(usedAt := Some(now))]
  }

  /** One statement of one request, a new request, or a new token. */
  datatype Action =
    | Issue(id: TokenId, token: Token)
    | Begin(request: RequestId, hash: Hash, purpose: Purpose, now: Instant)
    | Select(request: RequestId, choice: Option<TokenId>)
    | Update(request: RequestId)

  ghost predicate Enabled(w: World, a: Action) {
    match a
    case Issue(id, token) => id !in w.tokens && token.usedAt.None?
    case Begin(r, _, _, _) => r !in w.requests
    case Select(r, choice) =>
      && r in w.requests && w.requests[r].stage.Reading?
      && Selectable(w.tokens, w.requests[r].hash, w.requests[r].purpose, choice)
    case Update(r) => r in w.requests && w.requests[r].stage.Marking? && w.requests[r].stage.token in w.tokens
  }

  function Moved(w: World, r: RequestId, stage: Stage): map<RequestId, Request>
    requires r in w.requests
  {
    w.requests[r := w.requests[r].(stage := stage)]
  }

  ghost function Do(w: World, a: Action): World
    requires Enabled(w, a)
  {
    match a
    case Issue(id, token) => w.(tokens := w.tokens[id := token])
    case Begin(r, hash, purpose, now) => w.(requests := w.requests[r := Request(hash, purpose, now, Reading)])
    case Select(r, choice) =>
      w.(requests := Moved(w, r, if choice.None? || w.tokens[choice.value].expiresAt < w.requests[r].now then Done(None)
                                 else Marking(choice.value)))
    case Update(r) =>
      var id := w.requests[r].stage.token;
      if w.tokens[id].usedAt.None? then
        State(Marked(w.tokens, id, w.requests[r].now), Moved(w, r, Done(Some(id))))
      else w.(requests := Moved(w, r, Done(None)))
  }

  ghost predicate Valid(w: World, actions: seq<Action>)
    decreases |actions|, 0
  {
    actions == [] ||
    (Valid(w, actions[..|actions| - 1]) && Enabled(Play(w, actions[..|actions| - 1]), actions[|actions| - 1]))
  }

  ghost function Play(w: World, actions: seq<Action>): World
    requires Valid(w, actions)
    decreases |actions|, 1
  {
    if actions == [] then w else Do(Play(w, actions[..|actions| - 1]), actions[|actions| - 1])
  }

  // ---- safety --------------------------------------------------------------

  ghost predicate Won(w: World, r: RequestId, id: TokenId) {
    r in w.requests && w.requests[r].stage == Done(Some(id))
  }

  /** A token this request may take: its own, and not expired by its clock. */
  predicate Suits(t: Token, q: Request) {
    t.hash == q.hash && t.purpose == q.purpose && t.expiresAt >= q.now
  }

  ghost predicate Ok(w: World) {
    && (forall r, id :: Won(w, r, id) ==>
          id in w.tokens && Suits(w.tokens[id], w.requests[r]) && w.tokens[id].usedAt == Some(w.requests[r].now))
    && (forall r, s, id :: Won(w, r, id) && Won(w, s, id) ==> r == s)
    && (forall r :: r in w.requests && w.requests[r].stage.Marking? ==>
          w.requests[r].stage.token in w.tokens && Suits(w.tokens[w.requests[r].stage.token], w.requests[r]))
  }

  /** Every used token was taken by somebody. */
  ghost predicate Accounted(w: World) {
    forall id :: id in w.tokens && w.tokens[id].usedAt.Some? ==> exists r :: Won(w, r, id)
  }

  lemma SelectKeepsOk(w: World, r: RequestId, choice: Option<TokenId>)
    requires Ok(w) && Enabled(w, Select(r, choice))
    ensures Ok(Do(w, Select(r, choice)))
  {
    var after := Do(w, Select(r, choice));
    forall s, id ensures Won(after, s, id) <==> Won(w, s, id) {}
  }

  lemma UpdateKeepsOk(w: World, r: RequestId)
    requires Ok(w) && Enabled(w, Update(r))
    ensures Ok(Do(w, Update(r)))
  {
    var after, id := Do(w, Update(r)), w.requests[r].stage.token;
    forall s, x ensures Won(after, s, x) <==> Won(w, s, x) || (s == r && x == id && w.tokens[id].usedAt.None?) {}
  }

  lemma StepKeepsOk(w: World, a: Action)
    requires Ok(w) && Enabled(w, a)
    ensures Ok(Do(w, a))
  {
    match a {
      case Issue(_, _) =>
        forall r, id ensures Won(Do(w, a), r, id) <==> Won(w, r, id) {}
      case Begin(_, _, _, _) =>
        forall r, id ensures Won(Do(w, a), r, id) <==> Won(w, r, id) {}
      case Select(r, choice) => SelectKeepsOk(w, r, choice);
      case Update(r) => UpdateKeepsOk(w, r);
    }
  }

  lemma StepAccounts(w: World, a: Action)
    requires Accounted(w) && Enabled(w, a)
    ensures Accounted(Do(w, a))
  {
    var after := Do(w, a);
    forall id | id in after.tokens && after.tokens[id].usedAt.Some?
      ensures exists r :: Won(after, r, id)
    {
      if id in w.tokens && w.tokens[id].usedAt.Some? {
        var r :| Won(w, r, id);
        assert Won(after, r, id);
      } else {
        assert Won(after, a.request, id);
      }
    }
  }

  /** Unused tokens and no request yet. */
  ghost predicate Fresh(w: World) {
    w.requests == map[] && forall id :: id in w.tokens ==> w.tokens[id].usedAt.None?
  }

  lemma {:induction false} PlayKeepsOk(w: World, actions: seq<Action>)
    requires Fresh(w) && Valid(w, actions)
    ensures Ok(Play(w, actions)) && Accounted(Play(w, actions))
  {
    if actions != [] {
      var before := Play(w, actions[..|actions| - 1]);
      PlayKeepsOk(w, actions[..|actions| - 1]);
      StepKeepsOk(before, actions[|actions| - 1]);
      StepAccounts(before, actions[|actions| - 1]);
    }
  }

  /** However the statements of any number of requests interleave: a token is used
      exactly when one request won it, no two requests win the same token, and who
      wins one asked for its hash and purpose before it expired. */
  lemma ConsumedAtMostOnce(w: World, actions: seq<Action>, id: TokenId)
    requires Fresh(w) && Valid(w, actions) && id in Play(w, actions).tokens
    ensures var end := Play(w, actions);
            && (end.tokens[id].usedAt.Some? <==> exists r :: Won(end, r, id))
            && (forall r, s :: Won(end, r, id) && Won(end, s, id) ==> r == s)
            && (forall r :: Won(end, r, id) ==> Suits(end.tokens[id], end.requests[r]))
  {
    PlayKeepsOk(w, actions);
  }

  /** A used token keeps its row for good, so no later request can select it. */
  lemma {:induction false} NeverUsableAgain(w: World, actions: seq<Action>, id: TokenId)
    requires Valid(w, actions) && id in w.tokens && w.tokens[id].usedAt.Some?
    ensures id in Play(w, actions).tokens && Play(w, actions).tokens[id] == w.tokens[id]
    ensures forall hash, purpose :: !Selectable(Play(w, actions).tokens, hash, purpose, Some(id))
  {
    if actions != [] {
      NeverUsableAgain(w, actions[..|actions| - 1], id);
    }
  }

  // ---- one request alone ---------------------------------------------------

  class TokenTable {
    var tokens: map<TokenId, Token>

    constructor (tokens: map<TokenId, Token>)
      ensures this.tokens == tokens
    {
      this.tokens := tokens;
    }

    /** The conditional UPDATE: it returns the row only when it was unused. */
    method MarkUsed(id: TokenId, now: Instant) returns (won: bool)
      requires id in tokens
      modifies this
      ensures won <==> old(tokens)[id].usedAt.None?
      ensures tokens == if won then Marked(old(tokens), id, now) else old(tokens)
    {
      won := tokens[id].usedAt.None?;
      if won {
        tokens := Marked(tokens, id, now);
      }
    }

    /** Consumes a token for its purpose. */
    method ConsumeToken(hash: Hash, purpose: Purpose, now: Instant) returns (record: Option<TokenId>)
      modifies this
      ensures record.Some? ==>
                && record.value in old(tokens) && Matches(old(tokens)[record.value], hash, purpose)
                && old(tokens)[record.value].expiresAt >= now
                && tokens == Marked(old(tokens), record.value, now)
      ensures record.None? ==> tokens == old(tokens)
      ensures record.None? ==>
                (forall id :: id in tokens ==> !Matches(tokens[id], hash, purpose))
                || exists id :: Expired(tokens, hash, purpose, now, id)
    {
      var found := FindRow(tokens, (id: TokenId, t: Token) => Matches(t, hash, purpose));
      if found.None? {
        return None;
      }
      assert Matches(tokens[found.value], hash, purpose);
      if tokens[found.value].expiresAt < now {
        assert Expired(tokens, hash, purpose, now, found.value);
        return None;
      }
      var won := MarkUsed(found.value, now);
      record := if won then found else None;
    }
  }

  /** A request whose statements nothing interrupts takes the row it selects exactly
      when that row has not expired, and otherwise changes no token. */
  lemma RequestAlone(w: World, r: RequestId, hash: Hash, purpose: Purpose, now: Instant, id: TokenId)
    requires r !in w.requests && Selectable(w.tokens, hash, purpose, Some(id))
    ensures var actions := [Begin(r, hash, purpose, now), Select(r, Some(id))]
                           + (if w.tokens[id].expiresAt < now then [] else [Update(r)]);
            && Valid(w, actions)
            && (Won(Play(w, actions), r, id) <==> w.tokens[id].expiresAt >= now)
            && Play(w, actions).requests[r].stage.Done?
            && Play(w, actions).tokens == if w.tokens[id].expiresAt >= now then Marked(w.tokens, id, now) else w.tokens
  {
    var begin, select := Begin(r, hash, purpose, now), Select(r, Some(id));
    assert Valid(w, []) && Play(w, []) == w;
    One(w, [], begin);
    One(w, [begin], select);
    assert [begin] + [select] == [begin, select];
    if w.tokens[id].expiresAt >= now {
      One(w, [begin, select], Update(r));
      assert [begin, select] + [Update(r)] == [begin, select, Update(r)];
    } else {
      assert [begin, select] + [] == [begin, select];
    }
  }

  lemma One(w: World, actions: seq<Action>, a: Action)
    requires Valid(w, actions) && Enabled(Play(w, actions), a)
    ensures Valid(w, actions + [a]) && Play(w, actions + [a]) == Do(Play(w, actions), a)
  {
    assert (actions + [a])[..|actions|] == actions;
  }
}
