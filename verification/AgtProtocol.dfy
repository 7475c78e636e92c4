/**
 Issuing long-term access grant tokens against proof-of-possession (PoP) tokens. The server handles
 one request at a time; while it does, the clock moves on and deletion timers fire. Replay is the
 concern of section 11.1 of RFC 9449. Time is counted in milliseconds; claims are in seconds.
 */
module AgtProtocol {
  import opened ByteStrings
  import opened ReplayCache

  const GAP := 3
  const LIFETIME := 5 * 60
  const RESIDENCY := (GAP + LIFETIME + 5) * 1000

  /** A received PoP. `claimsOk` stands for the audience, thumbprint and repeated signature checks. */
  datatype Pop = Pop(jti: string, iat: Option<int>, signatureOk: bool, claimsOk: bool)

  datatype Timer = Timer(jti: string, due: nat)

  /** A PoP whose identifier was recorded at `at` and which has yet to be validated. */
  datatype Pending = Pending(pop: Pop, at: nat)

  datatype Issue = Issue(jti: string, iat: int, at: nat, issuedAt: nat)

  /** `accepted` lists every identifier ever recorded; `positions` are those of the cached ones in it. */
  datatype State = State(
    now: nat,
    cache: Cache,
    timers: multiset<Timer>,
    pending: Option<Pending>,
    issued: seq<Issue>,
    accepted: seq<string>,
    positions: seq<nat>)

  const INIT := State(0, EMPTY, multiset{}, None, [], [], [])

  datatype Step =
    | Request(pop: Pop)
    | Finish
    | Tick(ms: nat)
    | Fire(timer: Timer)

  /** The time check: seconds strictly between iat - GAP and iat + GAP + LIFETIME. */
  predicate CheckIat(now: nat, iat: Option<int>) {
    var act := now / 1000;
    iat.Some? && act < iat.value + GAP + LIFETIME && act > iat.value - GAP
  }

  predicate Validate(now: nat, pop: Pop) {
    CheckIat(now, pop.iat) && pop.claimsOk
  }

  predicate Enabled(s: State, step: Step) {
    match step
    case Request(_) => s.pending.None?
    case Finish => s.pending.Some?
    case Tick(_) => true
    case Fire(t) => t in s.timers && t.due <= s.now
  }

  function Apply(s: State, step: Step): State
    requires Enabled(s, step)
  {
    match step
    case Request(pop) => Admit(s, pop)
    case Finish =>
      var p := s.pending.value;
      var s1 := s.(pending := None);
      if Validate(s.now, p.pop)
      then s1.(issued := s.issued + [Issue(p.pop.jti, p.pop.iat.value, p.at, s.now)])
      else s1
    case Tick(ms) => s.(now := s.now + ms)
    case Fire(t) =>
      s.(cache := Remove(s.cache, t.jti),
         timers := s.timers - multiset{t},
         positions := DropAt(s.positions, IndexOf(s.cache.order, t.jti)))
  }

  /** Signature first, then the replay cache; a recorded identifier starts its deletion timer. */
  function Admit(s: State, pop: Pop): State {
    if !pop.signatureOk || pop.jti in s.cache.keys then s
    else
      var kept := if Evicts(s.cache, pop.jti) && s.positions != [] then s.positions[1..] else s.positions;
      s.(cache := Insert(s.cache, pop.jti),
         timers := s.timers + multiset{Timer(pop.jti, s.now + RESIDENCY)},
         pending := Some(Pending(pop, s.now)),
         accepted := s.accepted + [pop.jti],
         positions := kept + [|s.accepted|])
  }

  predicate Possible(s: State, steps: seq<Step>)
    decreases |steps|
  {
    steps == [] || (Enabled(s, steps[0]) && Possible(Apply(s, steps[0]), steps[1..]))
  }

  function After(s: State, steps: seq<Step>): State
    requires Possible(s, steps)
    decreases |steps|
  {
    if steps == [] then s else After(Apply(s, steps[0]), steps[1..])
  }

  // ----- the cache in every interleaving -----

  /** Cached identifiers point at their entries in the list of accepted ones, in the same order. */
  ghost predicate Booked(s: State) {
    && Consistent(s.cache)
    && |s.positions| == |s.cache.order|
    && (forall i :: 0 <= i < |s.positions| ==> s.positions[i] < |s.accepted| && s.accepted[s.positions[i]] == s.cache.order[i])
    && (forall i, j :: 0 <= i < j < |s.positions| ==> s.positions[i] < s.positions[j])
  }

  lemma {:induction false} AdmitBooked(s: State, pop: Pop)
    requires Booked(s)
    ensures Booked(Admit(s, pop))
  {
    hide Consistent;
    if pop.signatureOk && pop.jti !in s.cache.keys {
      var s' := Admit(s, pop);
      InsertConsistent(s.cache, pop.jti);
      var d := if Evicts(s.cache, pop.jti) then 1 else 0;
      assert s'.cache.order == s.cache.order[d..] + [pop.jti];
      assert s'.positions == s.positions[d..] + [|s.accepted|];
      AppendBooked(s, s', pop.jti, d);
    }
  }

  lemma {:induction false} AppendBooked(s: State, s': State, jti: string, d: nat)
    requires Booked(s) && Consistent(s'.cache) && d <= |s.positions|
    requires s'.cache.order == s.cache.order[d..] + [jti] && s'.accepted == s.accepted + [jti]
    requires s'.positions == s.positions[d..] + [|s.accepted|]
    ensures Booked(s')
  {
    hide Consistent;
    var n := |s.positions| - d;
    assert forall i :: 0 <= i < n ==> s'.positions[i] == s.positions[i + d] && s'.cache.order[i] == s.cache.order[i + d];
    assert s'.positions[n] == |s.accepted| && s'.cache.order[n] == jti;
  }

  lemma {:induction false} FireBooked(s: State, t: Timer)
    requires Booked(s) && Enabled(s, Fire(t))
    ensures Booked(Apply(s, Fire(t)))
  {
    hide Consistent, IndexOf;
    RemoveConsistent(s.cache, t.jti);
    var i := IndexOf(s.cache.order, t.jti);
    var p, o := DropAt(s.positions, i), DropAt(s.cache.order, i);
    assert forall k :: 0 <= k < |p| ==> p[k] == s.positions[if k < i then k else k + 1];
    assert forall k :: 0 <= k < |o| ==> o[k] == s.cache.order[if k < i then k else k + 1];
  }

  lemma {:induction false} StepBooked(s: State, step: Step)
    requires Booked(s) && Enabled(s, step)
    ensures Booked(Apply(s, step))
  {
    hide Admit;
    match step
    case Request(pop) => AdmitBooked(s, pop);
    case Finish =>
    case Tick(_) =>
    case Fire(t) => FireBooked(s, t);
  }

  /** In every run the map and the queue agree, without duplicates, within the cap. */
  lemma {:induction false} RunBooked(s: State, steps: seq<Step>)
    requires Booked(s) && Possible(s, steps)
    ensures Booked(After(s, steps))
    decreases |steps|
  {
    hide Booked, Apply;
    if steps != [] {
      StepBooked(s, steps[0]);
      RunBooked(Apply(s, steps[0]), steps[1..]);
    }
  }

  lemma {:induction false} PositionsSpread(positions: seq<nat>, i: nat)
    requires forall i, j :: 0 <= i < j < |positions| ==> positions[i] < positions[j]
    requires i < |positions|
    ensures positions[i] >= positions[0] + i
  {
    if i > 0 {
      PositionsSpread(positions, i - 1);
    }
  }

  /**
   A cached identifier leaves the cache in one step only if a timer started for it fires, or if it
   is the oldest and, with the one just recorded, 10000 identifiers were accepted after it.
   */
  lemma {:induction false} LeavesOnlyBy(s: State, step: Step, jti: string)
    requires Booked(s) && Enabled(s, step) && jti in s.cache.keys && jti !in Apply(s, step).cache.keys
    ensures (step.Fire? && step.timer.jti == jti)
         || (&& step.Request? && jti == s.cache.order[0]
             && jti == s.accepted[s.positions[0]]
             && |Apply(s, step).accepted| - 1 - s.positions[0] >= MAX_JTI_CACHE_SIZE)
  {
    if step.Request? {
      SizeOfOrder(s.cache.keys, s.cache.order);
      PositionsSpread(s.positions, |s.positions| - 1);
    }
  }

  // ----- at most one token per PoP -----

  /** The step does not evict `jti`, and validates it at most `delay` after it was recorded. */
  predicate Regular(s: State, step: Step, jti: string, delay: nat) {
    match step
    case Request(pop) => pop.signatureOk && Evicts(s.cache, pop.jti) ==> s.cache.order[0] != jti
    case Finish => s.pending.Some? && s.pending.value.pop.jti == jti ==> s.now <= s.pending.value.at + delay
    case _ => true
  }

  predicate RegularRun(s: State, steps: seq<Step>, jti: string, delay: nat)
    requires Possible(s, steps)
    decreases |steps|
  {
    steps == [] || (Regular(s, steps[0], jti, delay) && RegularRun(Apply(s, steps[0]), steps[1..], jti, delay))
  }

  const DELAY := 3000

  /** At most one timer runs for the identifier, and only while it is cached. */
  ghost predicate TimersOk(s: State, jti: string) {
    && (forall t :: t in s.timers && t.jti == jti ==> jti in s.cache.keys && s.timers[t] == 1)
    && (forall t, u :: t in s.timers && u in s.timers && t.jti == u.jti == jti ==> t == u)
  }

  /** An identifier recorded at `at` is still cached, with no timer due, for the residency time. */
  ghost predicate Held(s: State, jti: string, at: nat) {
    s.now < at + RESIDENCY ==>
      jti in s.cache.keys && forall t :: t in s.timers && t.jti == jti ==> t.due >= at + RESIDENCY
  }

  ghost predicate IssueOk(s: State, e: Issue) {
    && e.at <= e.issuedAt <= s.now && e.issuedAt <= e.at + DELAY
    && CheckIat(e.issuedAt, Some(e.iat))
    && Held(s, e.jti, e.at)
  }

  ghost predicate PendingOk(s: State, jti: string) {
    s.pending.Some? && s.pending.value.pop.jti == jti ==>
      && s.pending.value.at <= s.now
      && Held(s, jti, s.pending.value.at)
      && forall e :: e in s.issued && e.jti == jti ==> s.pending.value.at >= e.at + RESIDENCY
  }

  /** No PoP with this jti has two tokens: tokens for it differ in the time the PoP was made. */
  ghost predicate NoReplay(issued: seq<Issue>, jti: string) {
    forall i, j :: 0 <= i < j < |issued| && issued[i].jti == issued[j].jti == jti ==> issued[i].iat != issued[j].iat
  }

  ghost predicate Safe(s: State, jti: string) {
    && TimersOk(s, jti) && PendingOk(s, jti)
    && (forall e :: e in s.issued && e.jti == jti ==> IssueOk(s, e))
    && NoReplay(s.issued, jti)
  }

  lemma {:induction false} AdmitHeld(s: State, pop: Pop, jti: string, at: nat)
    requires at <= s.now && Held(s, jti, at) && Regular(s, Request(pop), jti, DELAY)
    ensures Held(Admit(s, pop), jti, at)
  {
  }

  lemma {:induction false} AdmitSafe(s: State, pop: Pop, jti: string)
    requires Safe(s, jti) && s.pending.None? && Regular(s, Request(pop), jti, DELAY)
    ensures Safe(Admit(s, pop), jti)
  {
    hide NoReplay, CheckIat, Evicts;
    var s' := Admit(s, pop);
    if pop.signatureOk && pop.jti !in s.cache.keys {
      InsertKeys(s.cache, pop.jti, jti);
      forall e | e in s'.issued && e.jti == jti
        ensures IssueOk(s', e)
      {
        AdmitHeld(s, pop, jti, e.at);
      }
    }
  }

  lemma InsertKeys(c: Cache, jti: string, other: string)
    requires jti !in c.keys && (Evicts(c, jti) ==> c.order[0] != other)
    ensures jti in Insert(c, jti).keys && (other in Insert(c, jti).keys <==> other == jti || other in c.keys)
  {
  }

  /** A second token for the same PoP would come too late: 308 s of residency outlast the window. */
  lemma {:induction false} TooLate(e: Issue, at: nat, now: nat)
    requires CheckIat(e.issuedAt, Some(e.iat)) && e.issuedAt <= e.at + DELAY
    requires e.at + RESIDENCY <= at <= now
    ensures !CheckIat(now, Some(e.iat))
  {
  }

  lemma {:induction false} FinishSafe(s: State, jti: string)
    requires Safe(s, jti) && s.pending.Some? && Regular(s, Finish, jti, DELAY)
    ensures Safe(Apply(s, Finish), jti)
  {
    var p := s.pending.value;
    if Validate(s.now, p.pop) && p.pop.jti == jti {
      forall e | e in s.issued && e.jti == jti
        ensures e.iat != p.pop.iat.value
      {
        if e.iat == p.pop.iat.value {
          TooLate(e, p.at, s.now);
          assert false;
        }
      }
    }
  }

  lemma {:induction false} FireSafe(s: State, t: Timer, jti: string)
    requires Safe(s, jti) && Enabled(s, Fire(t))
    ensures Safe(Apply(s, Fire(t)), jti)
  {
    hide CheckIat, NoReplay, DropAt, IndexOf;
  }

  lemma {:induction false} TickSafe(s: State, ms: nat, jti: string)
    requires Safe(s, jti)
    ensures Safe(s.(now := s.now + ms), jti)
  {
    hide CheckIat, NoReplay;
  }

  lemma {:induction false} StepSafe(s: State, step: Step, jti: string)
    requires Safe(s, jti) && Enabled(s, step) && Regular(s, step, jti, DELAY)
    ensures Safe(Apply(s, step), jti)
  {
    hide Safe;
    match step
    case Request(pop) => AdmitSafe(s, pop, jti);
    case Finish => FinishSafe(s, jti);
    case Tick(ms) => TickSafe(s, ms, jti);
    case Fire(t) => FireSafe(s, t, jti);
  }

  lemma {:induction false} RunSafe(s: State, steps: seq<Step>, jti: string)
    requires Safe(s, jti) && Possible(s, steps) && RegularRun(s, steps, jti, DELAY)
    ensures Safe(After(s, steps), jti)
    decreases |steps|
  {
    hide Safe, Apply;
    if steps != [] {
      assert Safe(Apply(s, steps[0]), jti) by { StepSafe(s, steps[0], jti); }
      RunSafe(Apply(s, steps[0]), steps[1..], jti);
    }
  }

  /** In every run that validates an identifier promptly and never evicts it, no PoP with it gets two tokens. */
  lemma {:induction false} AtMostOneToken(steps: seq<Step>, jti: string)
    requires Possible(INIT, steps) && RegularRun(INIT, steps, jti, DELAY)
    ensures NoReplay(After(INIT, steps).issued, jti)
  {
    hide Possible, After, RegularRun;
    RunSafe(INIT, steps, jti);
  }

  // ----- runs too short to make room for a second recording -----

  /** As `RegularRun` for every identifier, without the demand that nothing is evicted. */
  predicate PromptRun(s: State, steps: seq<Step>, delay: nat)
    requires Possible(s, steps)
    decreases |steps|
  {
    steps == [] || ((steps[0].Finish? && s.pending.Some? ==> s.now <= s.pending.value.at + delay)
                    && PromptRun(Apply(s, steps[0]), steps[1..], delay))
  }

  lemma {:induction false} AcceptedGrow(s: State, steps: seq<Step>)
    requires Possible(s, steps)
    ensures |After(s, steps).accepted| >= |s.accepted|
    decreases |steps|
  {
    if steps != [] {
      AcceptedGrow(Apply(s, steps[0]), steps[1..]);
    }
  }

  lemma {:induction false} CachedWereAccepted(s: State)
    requires Booked(s)
    ensures |s.cache.keys| <= |s.accepted|
  {
    SizeOfOrder(s.cache.keys, s.cache.order);
    if s.positions != [] {
      PositionsSpread(s.positions, |s.positions| - 1);
    }
  }

  /** Nothing more can be recorded, and what is being validated is another identifier. */
  ghost predicate Full(s: State, jti: string) {
    && NoReplay(s.issued, jti) && |s.accepted| == MAX_JTI_CACHE_SIZE + 1
    && (s.pending.Some? ==> s.pending.value.pop.jti != jti)
  }

  lemma {:induction false} FullRun(s: State, steps: seq<Step>, jti: string)
    requires Full(s, jti) && Possible(s, steps) && |After(s, steps).accepted| <= MAX_JTI_CACHE_SIZE + 1
    ensures NoReplay(After(s, steps).issued, jti)
    decreases |steps|
  {
    if steps != [] {
      var s' := Apply(s, steps[0]);
      AcceptedGrow(s', steps[1..]);
      assert Full(s', jti);
      FullRun(s', steps[1..], jti);
    }
  }

  lemma {:induction false} EvictedAtTheEnd(s: State, pop: Pop, jti: string)
    requires Booked(s) && Safe(s, jti) && s.pending.None? && !Regular(s, Request(pop), jti, DELAY)
    requires |Admit(s, pop).accepted| <= MAX_JTI_CACHE_SIZE + 1
    ensures Full(Admit(s, pop), jti)
  {
    hide NoReplay, TimersOk, IssueOk;
    CachedWereAccepted(s);
    assert s.cache.order[0] in s.cache.order;
  }

  lemma {:induction false} ShortRun(s: State, steps: seq<Step>, jti: string)
    requires Booked(s) && Safe(s, jti) && Possible(s, steps) && PromptRun(s, steps, DELAY)
    requires |After(s, steps).accepted| <= MAX_JTI_CACHE_SIZE + 1
    ensures NoReplay(After(s, steps).issued, jti)
    decreases |steps|
  {
    hide Booked, TimersOk, PendingOk, IssueOk, NoReplay, Full;
    if steps != [] {
      var s' := Apply(s, steps[0]);
      AcceptedGrow(s', steps[1..]);
      if Regular(s, steps[0], jti, DELAY) {
        StepBooked(s, steps[0]);
        StepSafe(s, steps[0], jti);
        ShortRun(s', steps[1..], jti);
      } else {
        EvictedAtTheEnd(s, steps[0].pop, jti);
        FullRun(s', steps[1..], jti);
      }
    }
  }

  /** A run that records at most 10001 identifiers in all gives no PoP two tokens. */
  lemma {:induction false} ShortRunSafe(steps: seq<Step>, jti: string)
    requires Possible(INIT, steps) && PromptRun(INIT, steps, DELAY)
    requires |After(INIT, steps).accepted| <= MAX_JTI_CACHE_SIZE + 1
    ensures NoReplay(After(INIT, steps).issued, jti)
  {
    hide Possible, After, PromptRun;
    ShortRun(INIT, steps, jti);
  }

  // ----- the bound on the delay is exact -----

  const SLOW_POP := Pop("id", Some(100), true, true)
  const REPLAYED: seq<Step> := [Fire(Timer("id", 402_999))] + ([Request(SLOW_POP)] + ([Finish] + []))

  /** A PoP recorded 5.001 s before its window opens, validated 3.001 s later, and sent again. */
  const SLOW_REPLAY: seq<Step> :=
    [Tick(94_999)] + ([Request(SLOW_POP)] + ([Tick(3_001)] + ([Finish] + ([Tick(304_999)] + REPLAYED))))

  const FIRST := Issue("id", 100, 94_999, 98_000)
  const CACHED := Cache({"id"}, ["id"])
  const VALIDATED := State(98_000, CACHED, multiset{Timer("id", 402_999)}, None, [FIRST], ["id"], [0])

  lemma {:induction false} Prepend(s: State, step: Step, rest: seq<Step>)
    requires Enabled(s, step) && Possible(Apply(s, step), rest)
    requires Regular(s, step, "id", DELAY + 1) && RegularRun(Apply(s, step), rest, "id", DELAY + 1)
    ensures Possible(s, [step] + rest) && RegularRun(s, [step] + rest, "id", DELAY + 1)
    ensures After(s, [step] + rest) == After(Apply(s, step), rest)
  {
    hide Apply, Regular, Enabled;
    assert ([step] + rest)[1..] == rest;
  }

  /** From the first token on: the timer fires, and the same PoP is recorded and validated again. */
  lemma {:induction false} SecondToken()
    ensures var s := VALIDATED.(now := 402_999);
            && Possible(s, REPLAYED) && RegularRun(s, REPLAYED, "id", DELAY + 1)
            && After(s, REPLAYED).issued == [FIRST, Issue("id", 100, 402_999, 402_999)]
  {
    hide Possible, RegularRun, After;
    var s5 := VALIDATED.(now := 402_999);
    var s6 := State(402_999, EMPTY, multiset{}, None, [FIRST], ["id"], []);
    var s7 := State(402_999, CACHED, multiset{Timer("id", 710_999)}, Some(Pending(SLOW_POP, 402_999)), [FIRST], ["id", "id"], [1]);
    var s8 := s7.(pending := None, issued := [FIRST, Issue("id", 100, 402_999, 402_999)]);
    TimerFires();
    assert Apply(s6, Request(SLOW_POP)) == s7;
    assert Apply(s7, Finish) == s8;
    Nothing(s8);
    Prepend(s7, Finish, []);
    Prepend(s6, Request(SLOW_POP), [Finish] + []);
    Prepend(s5, Fire(Timer("id", 402_999)), [Request(SLOW_POP)] + ([Finish] + []));
  }

  lemma {:induction false} TimerFires()
    ensures Apply(VALIDATED.(now := 402_999), Fire(Timer("id", 402_999)))
         == State(402_999, EMPTY, multiset{}, None, [FIRST], ["id"], [])
  {
    assert IndexOf(["id"], "id") == 0;
    assert Remove(CACHED, "id") == EMPTY;
    assert DropAt([0], 0) == [];
  }

  lemma Nothing(s: State)
    ensures Possible(s, []) && RegularRun(s, [], "id", DELAY + 1) && After(s, []) == s
  {
  }

  /** One millisecond more between recording and validating is enough for two tokens. */
  lemma {:induction false} DelayBoundTight()
    ensures Possible(INIT, SLOW_REPLAY) && RegularRun(INIT, SLOW_REPLAY, "id", DELAY + 1)
    ensures !NoReplay(After(INIT, SLOW_REPLAY).issued, "id")
  {
    hide Possible, RegularRun, After;
    var s1 := INIT.(now := 94_999);
    var s2 := State(94_999, CACHED, multiset{Timer("id", 402_999)}, Some(Pending(SLOW_POP, 94_999)), [], ["id"], [0]);
    var s3 := s2.(now := 98_000);
    var s5 := VALIDATED.(now := 402_999);
    assert Apply(s1, Request(SLOW_POP)) == s2;
    assert Apply(s3, Finish) == VALIDATED;
    SecondToken();
    var rest5 := [Tick(304_999)] + REPLAYED;
    var rest4 := [Finish] + rest5;
    var rest3 := [Tick(3_001)] + rest4;
    Prepend(VALIDATED, Tick(304_999), REPLAYED);
    Prepend(s3, Finish, rest5);
    Prepend(s2, Tick(3_001), rest4);
    Prepend(s1, Request(SLOW_POP), rest3);
    Prepend(INIT, Tick(94_999), [Request(SLOW_POP)] + rest3);
    var issued := After(INIT, SLOW_REPLAY).issued;
    assert issued[0].jti == issued[1].jti && issued[0].iat == issued[1].iat;
  }

  // ----- the bound on the number of identifiers is exact -----

  const REAL_POP := Pop("id", Some(100), true, true)
  const ISSUED := Issue("id", 100, 100_000, 100_000)

  /** The n-th of the other clients' identifiers. */
  function OtherId(n: nat): string {
    seq(n, _ => 'x')
  }

  function OtherIds(n: nat): (ids: seq<string>)
    ensures |ids| == n && forall i :: 0 <= i < n ==> ids[i] == OtherId(i)
  {
    seq(n, i requires 0 <= i < n => OtherId(i))
  }

  /** The token is issued, and n other identifiers were recorded after its own. */
  ghost predicate Crowded(s: State, n: nat) {
    && s.now == 100_000 && s.pending.None? && s.issued == [ISSUED] && |s.accepted| == n + 1
    && s.cache.order == ["id"] + OtherIds(n)
    && forall x :: x in s.cache.keys <==> x in s.cache.order
  }

  function OtherRequest(n: nat): Step {
    Request(Pop(OtherId(n), Some(100), true, false))
  }

  lemma {:induction false} OtherIsNew(n: nat)
    ensures OtherId(n) !in ["id"] + OtherIds(n)
    ensures NoDuplicates(["id"] + OtherIds(n))
  {
    var ids := ["id"] + OtherIds(n);
    assert forall i :: 1 <= i <= n ==> ids[i] == OtherId(i - 1) && |ids[i]| == i - 1;
    assert OtherId(n) != "id" by {
      if n == 2 {
        assert OtherId(n)[0] == 'x';
      }
    }
    forall i | 1 <= i <= n
      ensures ids[i] != "id"
    {
      if i == 3 {
        assert ids[i][0] == 'x';
      }
    }
  }

  lemma {:induction false} AnotherOne(s: State, n: nat) returns (s': State)
    requires Crowded(s, n) && n + 1 < MAX_JTI_CACHE_SIZE
    ensures Crowded(s', n + 1)
    ensures Possible(s, [OtherRequest(n), Finish]) && After(s, [OtherRequest(n), Finish]) == s'
    ensures PromptRun(s, [OtherRequest(n), Finish], 0)
  {
    OtherIsNew(n);
    SizeOfOrder(s.cache.keys, s.cache.order);
    var s1 := Apply(s, OtherRequest(n));
    assert OtherIds(n + 1) == OtherIds(n) + [OtherId(n)];
    assert s1.cache.order == ["id"] + OtherIds(n + 1);
    s' := Apply(s1, Finish);
    RunOfTwo(s, OtherRequest(n), Finish);
  }

  lemma {:induction false} RunOfTwo(s: State, a: Step, b: Step)
    requires Enabled(s, a) && Enabled(Apply(s, a), b)
    requires !a.Finish? && (b.Finish? ==> Apply(s, a).pending.Some? && Apply(s, a).now <= Apply(s, a).pending.value.at)
    ensures Possible(s, [a, b]) && After(s, [a, b]) == Apply(Apply(s, a), b) && PromptRun(s, [a, b], 0)
  {
    hide Apply, Enabled;
    assert [a, b][1..] == [b] && [b][1..] == [];
    assert Possible(Apply(Apply(s, a), b), []) && After(Apply(Apply(s, a), b), []) == Apply(Apply(s, a), b);
    assert Possible(Apply(s, a), [b]) && After(Apply(s, a), [b]) == Apply(Apply(s, a), b);
    assert PromptRun(Apply(s, a), [b], 0);
  }

  lemma {:induction false} RunsJoin(s: State, first: seq<Step>, second: seq<Step>)
    requires Possible(s, first) && Possible(After(s, first), second)
    requires PromptRun(s, first, 0) && PromptRun(After(s, first), second, 0)
    ensures Possible(s, first + second) && PromptRun(s, first + second, 0)
    ensures After(s, first + second) == After(After(s, first), second)
    decreases |first|
  {
    hide Apply, Enabled;
    if first == [] {
      assert first + second == second;
    } else {
      assert (first + second)[1..] == first[1..] + second;
      RunsJoin(Apply(s, first[0]), first[1..], second);
    }
  }

  lemma {:induction false} FillUp(s: State, n: nat) returns (steps: seq<Step>)
    requires Crowded(s, n) && n + 1 <= MAX_JTI_CACHE_SIZE
    ensures Possible(s, steps) && PromptRun(s, steps, 0)
    ensures Crowded(After(s, steps), MAX_JTI_CACHE_SIZE - 1)
    decreases MAX_JTI_CACHE_SIZE - n
  {
    hide Crowded, Apply, Enabled;
    if n + 1 == MAX_JTI_CACHE_SIZE {
      steps := [];
    } else {
      var s' := AnotherOne(s, n);
      var more := FillUp(s', n + 1);
      RunsJoin(s, [OtherRequest(n), Finish], more);
      steps := [OtherRequest(n), Finish] + more;
    }
  }

  /** One more identifier pushes the first out, and its PoP is taken for a new one. */
  lemma {:induction false} Reopened(s: State)
    requires Crowded(s, MAX_JTI_CACHE_SIZE - 1)
    ensures var n := MAX_JTI_CACHE_SIZE - 1;
            var s2 := Apply(Apply(s, OtherRequest(n)), Finish);
            && s2.pending.None? && s2.issued == [ISSUED] && s2.now == 100_000
            && "id" !in s2.cache.keys && |s2.accepted| == MAX_JTI_CACHE_SIZE + 1
    ensures var n := MAX_JTI_CACHE_SIZE - 1;
            && Possible(s, [OtherRequest(n), Finish]) && PromptRun(s, [OtherRequest(n), Finish], 0)
            && After(s, [OtherRequest(n), Finish]) == Apply(Apply(s, OtherRequest(n)), Finish)
  {
    var n := MAX_JTI_CACHE_SIZE - 1;
    OtherIsNew(n);
    SizeOfOrder(s.cache.keys, s.cache.order);
    assert s.cache.order[0] == "id" && OtherId(n) != "id";
    RunOfTwo(s, OtherRequest(n), Finish);
  }

  /** With prompt validation throughout, 10002 recorded identifiers are enough for two tokens. */
  lemma {:induction false} EvictionReopens() returns (steps: seq<Step>)
    ensures Possible(INIT, steps) && PromptRun(INIT, steps, DELAY)
    ensures |After(INIT, steps).accepted| == MAX_JTI_CACHE_SIZE + 2
    ensures !NoReplay(After(INIT, steps).issued, "id")
  {
    var opening := [Tick(100_000)];
    var s0 := INIT.(now := 100_000);
    assert Possible(INIT, opening) && After(INIT, opening) == s0 && PromptRun(INIT, opening, 0) by {
      assert opening[1..] == [];
    }
    var ask := [Request(REAL_POP), Finish];
    var s1 := Apply(Apply(s0, Request(REAL_POP)), Finish);
    assert OtherIds(0) == [];
    assert s1.cache.order == ["id"] && s1.cache.keys == {"id"};
    assert Crowded(s1, 0);
    RunOfTwo(s0, Request(REAL_POP), Finish);
    hide Apply, Enabled, Crowded, Possible, PromptRun, After;
    var fill := FillUp(s1, 0);
    var s2 := After(s1, fill);
    Reopened(s2);
    steps := Finale(s2);
    RunsJoin(s1, fill, steps);
    RunsJoin(s0, ask, fill + steps);
    RunsJoin(INIT, opening, ask + (fill + steps));
    steps := opening + (ask + (fill + steps));
    MorePrompt(INIT, steps);
    var issued := After(INIT, steps).issued;
    assert issued[0] == issued[1];
  }

  lemma {:induction false} MorePrompt(s: State, steps: seq<Step>)
    requires Possible(s, steps) && PromptRun(s, steps, 0)
    ensures PromptRun(s, steps, DELAY)
    decreases |steps|
  {
    hide Apply, Enabled;
    if steps != [] {
      MorePrompt(Apply(s, steps[0]), steps[1..]);
    }
  }

  lemma {:induction false} TakenForNew(s: State)
    requires s.pending.None? && s.issued == [ISSUED] && s.now == 100_000 && "id" !in s.cache.keys
    ensures var s' := Apply(Apply(s, Request(REAL_POP)), Finish);
            s'.issued == [ISSUED, ISSUED] && |s'.accepted| == |s.accepted| + 1
    ensures Possible(s, [Request(REAL_POP), Finish]) && PromptRun(s, [Request(REAL_POP), Finish], 0)
    ensures After(s, [Request(REAL_POP), Finish]) == Apply(Apply(s, Request(REAL_POP)), Finish)
  {
    RunOfTwo(s, Request(REAL_POP), Finish);
  }

  lemma {:induction false} Finale(s: State) returns (steps: seq<Step>)
    requires Crowded(s, MAX_JTI_CACHE_SIZE - 1)
    ensures Possible(s, steps) && PromptRun(s, steps, 0)
    ensures After(s, steps).issued == [ISSUED, ISSUED] && |After(s, steps).accepted| == MAX_JTI_CACHE_SIZE + 2
  {
    hide Apply, Enabled, Crowded, Possible, PromptRun, After;
    Reopened(s);
    var other, again := [OtherRequest(MAX_JTI_CACHE_SIZE - 1), Finish], [Request(REAL_POP), Finish];
    TakenForNew(After(s, other));
    RunsJoin(s, other, again);
    steps := other + again;
  }

  // ----- what a token is issued for -----

  /** The proof is genuine, and at `at` it is younger than 303 seconds and less than 3 seconds ahead of its time. */
  ghost predicate Entitles(pop: Pop, at: nat) {
    && pop.signatureOk && pop.claimsOk && pop.iat.Some?
    && pop.iat.value - 3 < at / 1000 < pop.iat.value + 303
  }

  /**
   A proof is taken up exactly if its signature is good and its identifier is not on record; then a token
   is issued exactly if the proof entitles to one at the time of validation.
   */
  lemma {:induction false} IssuedIff(s: State, pop: Pop, ms: nat)
    requires s.pending.None?
    ensures var s1 := Apply(s, Request(pop));
            && (s1.pending.Some? <==> pop.signatureOk && pop.jti !in s.cache.keys)
            && (s1.pending.None? ==> s1 == s)
            && (s1.pending.Some? ==>
                  var s2 := Apply(Apply(s1, Tick(ms)), Finish);
                  s2.issued == if Entitles(pop, s.now + ms) then s.issued + [Issue(pop.jti, pop.iat.value, s.now, s.now + ms)] else s.issued)
  {
    hide Insert;
  }

  function Requests(steps: seq<Step>): seq<Pop> {
    if steps == [] then []
    else (if steps[0].Request? then [steps[0].pop] else []) + Requests(steps[1..])
  }

  /** Some proof among `pops` entitled to this token when it was issued. */
  ghost predicate IsProved(issue: Issue, pops: seq<Pop>) {
    exists pop :: pop in pops && pop.jti == issue.jti && pop.iat == Some(issue.iat) && Entitles(pop, issue.issuedAt)
  }

  ghost predicate AllProved(s: State, pops: seq<Pop>) {
    && (forall issue :: issue in s.issued ==> IsProved(issue, pops))
    && (s.pending.Some? ==> s.pending.value.pop in pops && s.pending.value.pop.signatureOk)
  }

  lemma {:induction false} StepProved(s: State, step: Step, pops: seq<Pop>)
    requires Enabled(s, step) && AllProved(s, pops)
    ensures AllProved(Apply(s, step), pops + Requests([step]))
  {
    hide Insert, Remove, Entitles;
    var all := pops + Requests([step]);
    assert [step][1..] == [] && Requests([]) == [];
    forall issue | issue in s.issued ensures IsProved(issue, all) {
      var pop :| pop in pops && pop.jti == issue.jti && pop.iat == Some(issue.iat) && Entitles(pop, issue.issuedAt);
      assert pop in all;
    }
    if step.Finish? {
      var p := s.pending.value;
      ValidIsEntitled(p.pop, s.now);
      assert p.pop in all;
    }
  }

  lemma ValidIsEntitled(pop: Pop, now: nat)
    ensures Entitles(pop, now) <==> pop.signatureOk && Validate(now, pop)
  {
  }

  lemma {:induction false} RunProved(s: State, steps: seq<Step>, pops: seq<Pop>)
    requires Possible(s, steps) && AllProved(s, pops)
    ensures AllProved(After(s, steps), pops + Requests(steps))
    decreases |steps|
  {
    hide AllProved, Apply, Enabled;
    if steps == [] {
      assert pops + [] == pops;
    } else {
      StepProved(s, steps[0], pops);
      RunProved(Apply(s, steps[0]), steps[1..], pops + Requests([steps[0]]));
      assert [steps[0]][1..] == [];
      assert pops + Requests([steps[0]]) + Requests(steps[1..]) == pops + Requests(steps);
    }
  }

  /** In every run, each token was issued for a proof that was presented and entitled to it at that moment. */
  lemma {:induction false} EveryTokenProved(steps: seq<Step>)
    requires Possible(INIT, steps)
    ensures forall issue :: issue in After(INIT, steps).issued ==> IsProved(issue, Requests(steps))
  {
    hide IsProved;
    RunProved(INIT, steps, []);
    assert [] + Requests(steps) == Requests(steps);
  }
}
