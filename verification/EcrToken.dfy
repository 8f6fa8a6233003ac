/**
 The cached ECR token (internal/staticsite/registryauth.go): one token source behind a lock, over any run of calls.
 */
module EcrToken {
  import opened Text

  /** Times are instants in nanoseconds. */
  datatype Token = Token(user: string, pass: string, fetched: int, expires: int)

  datatype Credential = Credential(user: string, pass: string)

  /** What the API answers: an error, no usable data, or a decoded `user:password` with an optional expiry. */
  datatype Answer = ApiError | NoData | NotBase64 | Decoded(raw: string, expiresAt: Option<int>)

  const LIFETIME := 12 * 3600 * 1_000_000_000

  /** The half-life; a duration is divided with truncation, and no token expires before it was fetched. */
  function RefreshAt(t: Token): int {
    t.fetched + (t.expires - t.fetched) / 2
  }

  function CutAt(s: string, c: char): Option<(string, string)> {
    if s == [] then None
    else if s[0] == c then Some(([], s[1..]))
    else
      var r := CutAt(s[1..], c);
      if r.None? then None else Some(([s[0]] + r.value.0, r.value.1))
  }

  lemma {:induction false} CutAtIs(s: string, c: char)
    ensures CutAt(s, c).None? <==> c !in s
    ensures CutAt(s, c).Some? ==> s == CutAt(s, c).value.0 + [c] + CutAt(s, c).value.1 && c !in CutAt(s, c).value.0
  {
    if s != [] && s[0] != c {
      CutAtIs(s[1..], c);
      assert s == [s[0]] + s[1..];
    }
  }

  function Fetch(now: int, answer: Answer): Option<Token> {
    if !answer.Decoded? then None
    else
      var cut := CutAt(answer.raw, ':');
      if cut.None? || cut.value.0 == "" || cut.value.1 == "" then None
      else
        var known := answer.expiresAt.Some? && answer.expiresAt.value > now;
        var expires := if known then answer.expiresAt.value else now + LIFETIME;
        Some(Token(cut.value.0, cut.value.1, now, expires))
  }

  // ---------------------------------------------------------------------------
  // One call
  // ---------------------------------------------------------------------------

  datatype Event = Get(now: int, answer: Answer) | Invalidate

  /** The token kept after a call, the token it gave out, and whether it asked the API. */
  datatype Outcome = Outcome(kept: Option<Token>, given: Option<Token>, asked: bool)

  function Step(tok: Option<Token>, e: Event): Outcome {
    match e
    case Invalidate => Outcome(None, None, false)
    case Get(now, answer) =>
      if tok.Some? && now < RefreshAt(tok.value) then Outcome(tok, tok, false)
      else
        var renewed := Fetch(now, answer);
        if renewed.Some? then Outcome(renewed, renewed, true)
        else if tok.Some? && now < tok.value.expires then Outcome(tok, tok, true)
        else Outcome(tok, None, true)
  }

  function Login(t: Option<Token>): Option<Credential> {
    if t.None? then None else Some(Credential(t.value.user, t.value.pass))
  }

  class EcrTokenSource {
    var tok: Option<Token>

    constructor ()
      ensures tok == None
    {
      tok := None;
    }

    /** The cached token, or a new one when none is cached or half of its life is over. */
    method Get(now: int, answer: Answer) returns (login: Option<Credential>, asked: bool)
      modifies this
      ensures tok == Step(old(tok), Event.Get(now, answer)).kept
      ensures login == Login(Step(old(tok), Event.Get(now, answer)).given)
      ensures asked == Step(old(tok), Event.Get(now, answer)).asked
    {
      if tok.Some? && now < RefreshAt(tok.value) {
        return Some(Credential(tok.value.user, tok.value.pass)), false;
      }
      var renewed := FetchToken(now, answer);
      if renewed.None? {
        if tok.Some? && now < tok.value.expires {
          return Some(Credential(tok.value.user, tok.value.pass)), true;
        }
        return None, true;
      }
      tok := renewed;
      login, asked := Some(Credential(renewed.value.user, renewed.value.pass)), true;
    }

    method FetchToken(now: int, answer: Answer) returns (t: Option<Token>)
      ensures t == Fetch(now, answer)
    {
      if !answer.Decoded? {
        return None;
      }
      var cut := CutAt(answer.raw, ':');
      if cut.None? || cut.value.0 == "" || cut.value.1 == "" {
        return None;
      }
      var expires := now + LIFETIME;
      if answer.expiresAt.Some? && answer.expiresAt.value > now {
        expires := answer.expiresAt.value;
      }
      t := Some(Token(cut.value.0, cut.value.1, now, expires));
    }

    method Invalidate()
      modifies this
      ensures tok == None
    {
      tok := None;
    }
  }

  class RegistryAuth {
    var src: EcrTokenSource?

    constructor ()
      ensures src == null
    {
      src := null;
    }

    /** After a refused pull: drops the token and says that a retry can help, for an ECR pull answered 401 alone. */
    method Refused(unauthorized: bool, ecr: bool) returns (retry: bool)
      modifies if src == null then {} else {src}
      ensures src == old(src)
      ensures retry <==> ecr && unauthorized && src != null
      ensures src != null ==> src.tok == if retry then None else old(src.tok)
    {
      if !ecr || !unauthorized || src == null {
        return false;
      }
      src.Invalidate();
      retry := true;
    }
  }

  // ---------------------------------------------------------------------------
  // Runs
  // ---------------------------------------------------------------------------

  /** The token kept after a run of calls, in the order the lock admitted them. */
  function After(events: seq<Event>): Option<Token> {
    if events == [] then None else Step(After(events[..|events| - 1]), events[|events| - 1]).kept
  }

  function At(events: seq<Event>, i: nat): Outcome
    requires i < |events|
  {
    Step(After(events[..i]), events[i])
  }

  lemma FetchedLives(now: int, answer: Answer)
    requires Fetch(now, answer).Some?
    ensures Fetch(now, answer).value.fetched == now < Fetch(now, answer).value.expires
  {
  }

  lemma {:induction false} KeptLives(events: seq<Event>)
    ensures After(events).Some? ==> After(events).value.fetched < After(events).value.expires
  {
    if events != [] {
      var e := events[|events| - 1];
      KeptLives(events[..|events| - 1]);
      if e.Get? && Fetch(e.now, e.answer).Some? {
        FetchedLives(e.now, e.answer);
      }
    }
  }

  /** A login of a decoded text: the two sides of its first colon, neither of them empty. */
  predicate LoginIn(text: string, user: string, pass: string) {
    text == user + ":" + pass && ':' !in user && user != "" && pass != ""
  }

  /** A fetch gives a token exactly when the answer decodes to a login, and the token's login is that one. */
  lemma FetchedLogin(now: int, answer: Answer)
    ensures Fetch(now, answer).Some? <==> answer.Decoded? && exists user, pass :: LoginIn(answer.raw, user, pass)
    ensures Fetch(now, answer).Some? ==>
      LoginIn(answer.raw, Fetch(now, answer).value.user, Fetch(now, answer).value.pass)
  {
    if answer.Decoded? {
      CutAtIs(answer.raw, ':');
      var cut := CutAt(answer.raw, ':');
      if Fetch(now, answer).Some? {
        assert LoginIn(answer.raw, cut.value.0, cut.value.1);
      }
      hide CutAt;
      forall user, pass | LoginIn(answer.raw, user, pass) ensures CutAt(answer.raw, ':') == Some((user, pass)) {
        CutAtFirst(user, pass, ':');
      }
    }
  }

  lemma {:induction false} CutAtFirst(before: string, after: string, c: char)
    requires c !in before
    ensures CutAt(before + [c] + after, c) == Some((before, after))
  {
    var s := before + [c] + after;
    if before == [] {
      assert s[1..] == after;
    } else {
      assert s[1..] == before[1..] + [c] + after;
      CutAtFirst(before[1..], after, c);
      assert before == [before[0]] + before[1..];
    }
  }

  /** A fetched token lives until the instant the answer names, if that is still to come, else for twelve hours. */
  lemma FetchedLife(now: int, answer: Answer)
    requires Fetch(now, answer).Some?
    ensures var t := Fetch(now, answer).value;
      && t.fetched == now
      && (answer.expiresAt.Some? && answer.expiresAt.value > now ==> t.expires == answer.expiresAt.value)
      && (answer.expiresAt.None? || answer.expiresAt.value <= now ==> t.expires == now + 12 * 60 * 60 * 1_000_000_000)
  {
    hide CutAt;
  }

  /** Every login given out over a run is the login of the text that some call up to then decoded. */
  lemma GivenLogin(events: seq<Event>, i: nat) returns (k: nat)
    requires i < |events| && events[i].Get? && At(events, i).given.Some?
    ensures k <= i && events[k].Get? && events[k].answer.Decoded?
    ensures LoginIn(events[k].answer.raw, At(events, i).given.value.user, At(events, i).given.value.pass)
  {
    GivenIsKept(After(events[..i]), events[i]);
    StepAfter(events, i);
    k := Provenance(events[..i + 1]);
    FetchedLogin(events[k].now, events[k].answer);
  }

  /** A call asks the API exactly when no token is kept or half of the kept one's life, rounded down, is over. */
  lemma AsksIff(events: seq<Event>, i: nat)
    requires i < |events| && events[i].Get?
    ensures At(events, i).asked <==>
      || After(events[..i]).None?
      || (var t := After(events[..i]).value; 2 * (events[i].now - t.fetched) + 1 >= t.expires - t.fetched)
  {
    KeptLives(events[..i]);
  }

  /**
   Every token given out is unexpired at that moment, and one given without asking has more than half its life left.
   */
  lemma GivenIsLive(events: seq<Event>, i: nat)
    requires i < |events| && events[i].Get? && At(events, i).given.Some?
    ensures events[i].now < At(events, i).given.value.expires
    ensures !At(events, i).asked ==>
      2 * (At(events, i).given.value.expires - events[i].now)
        > At(events, i).given.value.expires - At(events, i).given.value.fetched
  {
    KeptLives(events[..i]);
    if Fetch(events[i].now, events[i].answer).Some? {
      FetchedLives(events[i].now, events[i].answer);
    }
  }

  /** A refresh that fails keeps the token there was, and gives it out as long as it has not expired. */
  lemma FailedRefreshKeeps(events: seq<Event>, i: nat)
    requires i < |events| && events[i].Get? && Fetch(events[i].now, events[i].answer).None?
    ensures At(events, i).kept == After(events[..i])
    ensures At(events, i).given
         == if After(events[..i]).Some? && events[i].now < After(events[..i]).value.expires then After(events[..i])
            else None
  {
    KeptLives(events[..i]);
  }

  /** The call that fetched the token kept now; nothing since has dropped or replaced it. */
  ghost predicate FetchedBy(events: seq<Event>, i: nat, t: Token) {
    && i < |events| && events[i].Get? && At(events, i).asked && Fetch(events[i].now, events[i].answer) == Some(t)
    && forall j :: i < j < |events| ==> events[j].Get? && After(events[..j]) == Some(t)
  }

  lemma {:induction false} Provenance(events: seq<Event>) returns (i: nat)
    requires After(events).Some?
    ensures FetchedBy(events, i, After(events).value)
  {
    var n := |events| - 1;
    var front, e := events[..n], events[n];
    var t := After(events).value;
    if e.Get? && At(events, n).asked && Fetch(e.now, e.answer).Some? {
      i := n;
    } else {
      assert After(front) == Some(t);
      i := Provenance(front);
      assert front[..i] == events[..i];
      forall j | i < j < |events| ensures events[j].Get? && After(events[..j]) == Some(t) {
        if j < n {
          assert front[..j] == events[..j] && front[j].Get?;
        } else {
          assert events[..j] == front;
        }
      }
    }
  }

  /** After an invalidation every token given out was fetched by a later call. */
  lemma NothingDroppedComesBack(events: seq<Event>, i: nat, j: nat) returns (k: nat)
    requires i < j < |events| && events[i].Invalidate? && events[j].Get? && At(events, j).given.Some?
    ensures i < k <= j && events[k].Get? && At(events, k).asked
    ensures Fetch(events[k].now, events[k].answer) == At(events, j).given
  {
    if At(events, j).asked && Fetch(events[j].now, events[j].answer).Some? {
      k := j;
    } else {
      k := Provenance(events[..j]);
      assert events[..j][..k] == events[..k];
      assert events[..j][i].Invalidate?;
    }
  }

  // ---------------------------------------------------------------------------
  // Slow calls and late refusals
  // ---------------------------------------------------------------------------

  /** How long the token of an answer lives, for a call that starts at an instant. */
  function LifeOf(now: int, expiresAt: Option<int>): int {
    if expiresAt.Some? && expiresAt.value > now then expiresAt.value - now else LIFETIME
  }

  /**
   A call reads the clock once, when it starts. A token fetched by a call is unexpired when the call returns exactly
   when the call took less than the token's life; one given without asking, whenever it took at most half of its life.
   */
  lemma LiveAtReturn(events: seq<Event>, i: nat, took: nat)
    requires i < |events| && events[i].Get? && At(events, i).given.Some?
    ensures var e, o := events[i], At(events, i);
      o.asked && Fetch(e.now, e.answer).Some? ==>
        (e.now + took < o.given.value.expires <==> took < LifeOf(e.now, e.answer.expiresAt))
    ensures var o, t := At(events, i), At(events, i).given.value;
      !o.asked && 2 * took <= t.expires - t.fetched ==> events[i].now + took < t.expires
  {
    GivenIsLive(events, i);
  }

  /** Between a call and a later point no token was dropped and none was fetched. */
  ghost predicate Untouched(events: seq<Event>, i: nat, j: nat)
    requires i < j <= |events|
  {
    forall k :: i < k < j ==>
      events[k].Get? && (At(events, k).asked ==> Fetch(events[k].now, events[k].answer).None?)
  }

  /** Each call starts later than the calls before it. */
  ghost predicate Ticks(events: seq<Event>) {
    forall a, b :: 0 <= a < b < |events| && events[a].Get? && events[b].Get? ==> events[a].now < events[b].now
  }

  lemma {:induction false} UntouchedKeeps(events: seq<Event>, i: nat, j: nat)
    requires i < j <= |events| && events[i].Get? && At(events, i).given.Some? && Untouched(events, i, j)
    ensures After(events[..j]) == At(events, i).given
    decreases j
  {
    assert events[..j][..j - 1] == events[..j - 1];
    if j > i + 1 {
      UntouchedKeeps(events, i, j - 1);
    }
  }

  /**
   The token an invalidation drops is the one an earlier call gave out exactly when no token was dropped or fetched in
   between; a refusal that comes after a refresh drops the newer token.
   */
  lemma DroppedIsRefused(events: seq<Event>, i: nat, j: nat)
    requires i < j <= |events| && events[i].Get? && At(events, i).given.Some? && Ticks(events)
    ensures After(events[..j]) == At(events, i).given <==> Untouched(events, i, j)
  {
    if Untouched(events, i, j) {
      UntouchedKeeps(events, i, j);
    }
    if After(events[..j]) == At(events, i).given {
      KeptIsUntouched(events, i, j);
    }
  }

  lemma FetchTime(events: seq<Event>, n: nat, t: Token) returns (p: nat)
    requires n <= |events| && After(events[..n]) == Some(t)
    ensures p < n && events[p].Get? && events[p].now == t.fetched
    ensures forall k :: p < k < n ==> events[k].Get? && After(events[..k]) == Some(t)
  {
    var front := events[..n];
    p := Provenance(front);
    hide Step, Fetch;
    forall k | p < k < n ensures events[k].Get? && After(events[..k]) == Some(t) {
      assert front[..k] == events[..k] && front[k] == events[k];
    }
    FetchStamps(front[p].now, front[p].answer);
  }

  lemma FetchStamps(now: int, answer: Answer)
    requires Fetch(now, answer).Some?
    ensures Fetch(now, answer).value.fetched == now
  {
  }

  lemma StepAfter(events: seq<Event>, k: nat)
    requires k < |events|
    ensures After(events[..k + 1]) == At(events, k).kept
  {
    assert events[..k + 1][..k] == events[..k];
  }

  lemma GivenIsKept(tok: Option<Token>, e: Event)
    ensures Step(tok, e).given.Some? ==> Step(tok, e).kept == Step(tok, e).given
    ensures e.Get? && Step(tok, e).asked && Fetch(e.now, e.answer).Some? ==> Step(tok, e).kept == Fetch(e.now, e.answer)
  {
  }

  lemma KeptIsUntouched(events: seq<Event>, i: nat, j: nat)
    requires i < j <= |events| && events[i].Get? && At(events, i).given.Some? && Ticks(events)
    requires After(events[..j]) == At(events, i).given
    ensures Untouched(events, i, j)
  {
    hide After, Step, Fetch;
    var t := At(events, i).given.value;
    GivenIsKept(After(events[..i]), events[i]);
    StepAfter(events, i);
    var p := FetchTime(events, i + 1, t);
    var q := FetchTime(events, j, t);
    assert p == q;
    forall k | i < k < j
      ensures events[k].Get? && (At(events, k).asked ==> Fetch(events[k].now, events[k].answer).None?)
    {
      StepAfter(events, k);
      GivenIsKept(After(events[..k]), events[k]);
      assert After(events[..k + 1]) == Some(t);
      if Fetch(events[k].now, events[k].answer).Some? {
        FetchStamps(events[k].now, events[k].answer);
      }
    }
  }

  /** One pull's refusal drops the token that another pull has fetched since. */
  lemma NewerIsDropped() returns (events: seq<Event>)
    ensures |events| == 3 && Ticks(events) && events[0].Get? && events[1].Get? && events[2] == Invalidate
    ensures At(events, 0).given.Some? && At(events, 1).given.Some?
    ensures At(events, 1).given.value.fetched > At(events, 0).given.value.fetched
    ensures After(events[..2]) == At(events, 1).given && After(events) == None
  {
    var first, second := Event.Get(0, Decoded("u:p", Some(2))), Event.Get(1, Decoded("u:q", None));
    events := [first, second, Invalidate];
    assert "u:p"[1..][1..] == "p" && "u:q"[1..][1..] == "q" && "u:p"[1..][0] == ':' && "u:q"[1..][0] == ':';
    assert events[..2] == [first, second] && [first, second][..1] == [first] && events[..1] == [first];
  }
}
