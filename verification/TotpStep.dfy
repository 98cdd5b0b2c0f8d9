/**
 * Time steps of one-time passwords (internal/auth/totp.go): matching a code to
 * a step and spending the step at most once. RFC 6238, sections 4.2 and 5.2.
 */
module TotpStep {
  import opened Wrappers
  import opened ExpiringMap

  const SECOND: int := 1_000_000_000
  const TOTP_PERIOD: int := 30
  const TOTP_SKEW: int := 1
  const DIGITS: nat := 6
  const MEMORY_STEP_TTL: int := 4 * TOTP_PERIOD * SECOND
  // The zero time.Time, January 1 of year 1.
  const ZERO_TIME: int := -62_135_596_800 * SECOND

  /** Go's integer division: towards zero. */
  function TruncDiv(a: int, b: int): int
    requires b > 0
  {
    if a >= 0 then a / b else -((-a) / b)
  }

  /** now.Unix() / totpPeriod; Unix rounds down. */
  function CurrentStep(now: int): int {
    TruncDiv(now / SECOND, TOTP_PERIOD)
  }

  predicate InWindow(step: int, now: int) {
    0 <= step && CurrentStep(now) - TOTP_SKEW <= step <= CurrentStep(now) + TOTP_SKEW
  }

  /** unicode.IsSpace. */
  predicate IsSpace(c: char) {
    var n := c as int;
    9 <= n <= 13 || n == 32 || n == 0x85 || n == 0xA0 || n == 0x1680 || 0x2000 <= n <= 0x200A
    || n == 0x2028 || n == 0x2029 || n == 0x202F || n == 0x205F || n == 0x3000
  }

  /** strings.TrimSpace. */
  function Trim(s: string): string
    decreases |s|
  {
    if s == [] then s
    else if IsSpace(s[0]) then Trim(s[1..])
    else if IsSpace(s[|s| - 1]) then Trim(s[..|s| - 1])
    else s
  }

  predicate AllSpaces(s: string) { forall c <- s :: IsSpace(c) }

  /** Spaces around a code are ignored, whatever their kind and number, and none within. */
  lemma {:induction false} PaddingIgnored(pre: string, code: string, post: string)
    requires AllSpaces(pre) && AllSpaces(post) && code != [] && !IsSpace(code[0]) && !IsSpace(code[|code| - 1])
    ensures Trim(pre + code + post) == code
    decreases |pre| + |post|
  {
    hide IsSpace;
    var s := pre + code + post;
    if pre != [] {
      assert s[0] == pre[0] && s[1..] == pre[1..] + code + post;
      PaddingIgnored(pre[1..], code, post);
    } else if post != [] {
      assert s[0] == code[0] && s[|s| - 1] == post[|post| - 1] && s[..|s| - 1] == pre + code + post[..|post| - 1];
      PaddingIgnored(pre, code, post[..|post| - 1]);
    } else {
      assert s == code;
    }
  }

  /** From 1970 on a code is accepted from one period before its own begins until one after it has ended. */
  lemma WindowIs(step: int, now: int)
    requires 0 <= now
    ensures InWindow(step, now) <==> 0 <= step && (step - 1) * TOTP_PERIOD * SECOND <= now < (step + 2) * TOTP_PERIOD * SECOND
  {
    var c := CurrentStep(now);
    assert c == now / SECOND / TOTP_PERIOD;
    assert c * TOTP_PERIOD * SECOND <= now < (c + 1) * TOTP_PERIOD * SECOND;
    if step - 1 <= c <= step + 1 {
      assert (step - 1) * TOTP_PERIOD * SECOND <= c * TOTP_PERIOD * SECOND;
      assert (c + 1) * TOTP_PERIOD * SECOND <= (step + 2) * TOTP_PERIOD * SECOND;
    }
  }

  /** The one-time password of a secret at each step; None when the secret is unusable. */
  type Otp = nat -> Option<string>

  predicate Valid(otp: Otp, code: string, step: nat) {
    |Trim(code)| == DIGITS && otp(step) == Some(Trim(code))
  }

  /** What the user typed counts without the spaces around it, if that is six bytes long. */
  lemma TypedCode(otp: Otp, pre: string, code: string, post: string, step: nat)
    requires AllSpaces(pre) && AllSpaces(post) && code != [] && !IsSpace(code[0]) && !IsSpace(code[|code| - 1])
    ensures Valid(otp, pre + code + post, step) <==> |code| == 6 && otp(step) == Some(code)
  {
    PaddingIgnored(pre, code, post);
  }

  /** The step a code is live for: the oldest of the window that it validates at. */
  method MatchTOTPStep(otp: Otp, code: string, now: int) returns (r: Option<nat>)
    ensures r.Some? ==> InWindow(r.value, now) && Valid(otp, code, r.value)
    ensures r.Some? ==> forall c: nat :: InWindow(c, now) && c < r.value ==> !Valid(otp, code, c)
    ensures r.None? ==> forall c: nat :: InWindow(c, now) ==> !Valid(otp, code, c)
  {
    var trimmed := Trim(code);
    if |trimmed| != DIGITS {
      return None;
    }
    var current := CurrentStep(now);
    var off := -TOTP_SKEW;
    while off <= TOTP_SKEW
      invariant -TOTP_SKEW <= off <= TOTP_SKEW + 1
      invariant forall c: nat :: InWindow(c, now) && c < current + off ==> !Valid(otp, code, c)
    {
      var c := current + off;
      if c >= 0 && otp(c) == Some(trimmed) {
        return Some(c);
      }
      off := off + 1;
    }
    r := None;
  }

  type UserId = nat

  /** The guard's fields as a value. */
  datatype Guard = Guard(last: map<UserId, Entry<int>>, lastSweep: int)

  const EMPTY: Guard := Guard(map[], ZERO_TIME)

  predicate Spent(last: map<UserId, Entry<int>>, now: int, user: UserId, step: int) {
    user in last && now < last[user].expiresAt && step <= last[user].value
  }

  function Remember(last: map<UserId, Entry<int>>, now: int, user: UserId, step: int): map<UserId, Entry<int>> {
    last[user := Entry(step, now + MEMORY_STEP_TTL)]
  }

  /** One ConsumeTOTPStep: the next state and whether the step was fresh. */
  function Consume(g: Guard, now: int, user: UserId, step: int): (Guard, bool) {
    var due := now - g.lastSweep >= MEMORY_STEP_TTL;
    var last := if due then Live(g.last, now) else g.last;
    var swept := if due then now else g.lastSweep;
    if Spent(last, now, user, step) then (Guard(last, swept), false)
    else (Guard(Remember(last, now, user, step), swept), true)
  }

  /** The same guard without a sweep: it forgets nothing and ignores what has expired. */
  function ConsumeRef(last: map<UserId, Entry<int>>, now: int, user: UserId, step: int)
    : (map<UserId, Entry<int>>, bool)
  {
    if Spent(last, now, user, step) then (last, false) else (Remember(last, now, user, step), true)
  }

  class MemoryTOTPReplayGuard {
    var last: map<UserId, Entry<int>>
    var lastSweep: int

    ghost function Value(): Guard
      reads this
    {
      Guard(last, lastSweep)
    }

    constructor ()
      ensures Value() == EMPTY
    {
      last, lastSweep := map[], ZERO_TIME;
    }

    /**
     * What happens under the mutex, hence in one piece. The clock was read
     * before the lock: readings need not reach the guard in their order.
     */
    method ConsumeTOTPStep(now: int, user: UserId, step: int) returns (unspent: bool)
      modifies this
      ensures (Value(), unspent) == Consume(old(Value()), now, user, step)
    {
      if now - lastSweep >= MEMORY_STEP_TTL {
        last := Sweep(last, now);
        lastSweep := now;
      }
      if user in last && now < last[user].expiresAt && step <= last[user].value {
        return false;
      }
      last := last[user := Entry(step, now + MEMORY_STEP_TTL)];
      unspent := true;
    }
  }

  /** An attempt to spend a step: when it was matched, when the guard read the clock and when it got the lock. */
  datatype Attempt = Attempt(user: UserId, matchedAt: int, readAt: int, lockedAt: int, step: int)

  function Verdicts(g: Guard, log: seq<Attempt>): (r: seq<bool>)
    ensures |r| == |log|
    decreases |log|
  {
    if log == [] then []
    else
      var (next, ok) := Consume(g, log[0].readAt, log[0].user, log[0].step);
      [ok] + Verdicts(next, log[1..])
  }

  function VerdictsRef(last: map<UserId, Entry<int>>, log: seq<Attempt>): (r: seq<bool>)
    ensures |r| == |log|
    decreases |log|
  {
    if log == [] then []
    else
      var (next, ok) := ConsumeRef(last, log[0].readAt, log[0].user, log[0].step);
      [ok] + VerdictsRef(next, log[1..])
  }

  /** The readings come in order. */
  predicate Nondecreasing(from: int, log: seq<Attempt>)
    decreases |log|
  {
    log == [] || (from <= log[0].readAt && Nondecreasing(log[0].readAt, log[1..]))
  }

  lemma ConsumeAgrees(g: Guard, ref: map<UserId, Entry<int>>, from: int, now: int, user: UserId, step: int)
    requires Agree(g.last, ref, from) && from <= now
    ensures Consume(g, now, user, step).1 == ConsumeRef(ref, now, user, step).1
    ensures Agree(Consume(g, now, user, step).0.last, ConsumeRef(ref, now, user, step).0, now)
  {
    AgreeLater(g.last, ref, from, now);
    var due := now - g.lastSweep >= MEMORY_STEP_TTL;
    var last := if due then Live(g.last, now) else g.last;
    assert Agree(last, ref, now);
    AgreeAt(last, ref, now, user);
    AgreeStore(last, ref, now, user, Entry(step, now + MEMORY_STEP_TTL));
  }

  lemma {:induction false} VerdictsAgree(g: Guard, ref: map<UserId, Entry<int>>, from: int, log: seq<Attempt>)
    requires Agree(g.last, ref, from) && Nondecreasing(from, log)
    ensures Verdicts(g, log) == VerdictsRef(ref, log)
    decreases |log|
  {
    if log != [] {
      var a := log[0];
      ConsumeAgrees(g, ref, from, a.readAt, a.user, a.step);
      VerdictsAgree(Consume(g, a.readAt, a.user, a.step).0, ConsumeRef(ref, a.readAt, a.user, a.step).0,
                    a.readAt, log[1..]);
    }
  }

  /** Sweeping is unobservable: call by call, for every sequence of calls with nondecreasing readings. */
  lemma SweepingUnobservable(log: seq<Attempt>, from: int)
    requires Nondecreasing(from, log)
    ensures Verdicts(EMPTY, log) == VerdictsRef(map[], log)
  {
    VerdictsAgree(EMPTY, map[], from, log);
  }

  /**
   * What the guard holds stays bounded and is given up only when it is due: no
   * call leaves the last sweep four periods behind its reading, and another
   * user's entry goes exactly if a sweep was due and the entry had expired.
   */
  lemma KeepsAndForgets(g: Guard, now: int, user: UserId, step: int, other: UserId)
    requires other != user && other in g.last
    ensures var next := Consume(g, now, user, step).0;
            && now < next.lastSweep + 4 * TOTP_PERIOD * SECOND
            && (other !in next.last <==> g.lastSweep + 4 * TOTP_PERIOD * SECOND <= now && g.last[other].expiresAt <= now)
            && (other in next.last ==> next.last[other] == g.last[other])
  {
  }

  /** An accepted attempt of the same user, for as late a step and four periods old at most, is why this one is refused. */
  predicate Blocks(earlier: Attempt, later: Attempt) {
    && earlier.user == later.user && later.step <= earlier.step
    && later.readAt < earlier.readAt + 4 * TOTP_PERIOD * SECOND
  }

  lemma {:induction false} RefusedFrom(g: Guard, log: seq<Attempt>, k: nat)
    requires k < |log| && !Verdicts(g, log)[k]
    ensures (exists i :: 0 <= i < k && Verdicts(g, log)[i] && Blocks(log[i], log[k]))
            || (log[k].user in g.last && log[k].step <= g.last[log[k].user].value && log[k].readAt < g.last[log[k].user].expiresAt)
    decreases |log|
  {
    if k > 0 {
      var a, rest := log[0], log[1..];
      var (next, ok) := Consume(g, a.readAt, a.user, a.step);
      RefusedFrom(next, rest, k - 1);
      if i :| 0 <= i < k - 1 && Verdicts(next, rest)[i] && Blocks(rest[i], rest[k - 1]) {
        assert Verdicts(g, log)[i + 1] && Blocks(log[i + 1], log[k]);
      } else if ok && a.user == log[k].user {
        assert Verdicts(g, log)[0] && Blocks(log[0], log[k]);
      }
    }
  }

  /**
   * A step that is fresh is accepted: whatever the log, a refusal comes only
   * after that step or a later one of the same user was accepted, within four
   * periods. A second device with the next code is let in.
   */
  lemma RefusedOnlyWhenSpent(log: seq<Attempt>, k: nat)
    requires k < |log| && !Verdicts(EMPTY, log)[k]
    ensures exists i :: 0 <= i < k && Verdicts(EMPTY, log)[i] && Blocks(log[i], log[k])
  {
    RefusedFrom(EMPTY, log, k);
  }

  /** The order of the locks, which is the order of the log. */
  predicate InLockOrder(log: seq<Attempt>) {
    forall i, j :: 0 <= i < j < |log| ==> log[i].lockedAt <= log[j].lockedAt
  }

  /** The step was matched in its window, at `since` or later, and the lock taken at most `delay` later. */
  predicate Timely(a: Attempt, since: int, delay: int) {
    && since <= a.matchedAt <= a.readAt <= a.lockedAt <= a.matchedAt + delay
    && InWindow(a.step, a.matchedAt)
  }

  /** Any two accepted attempts of one user are for strictly increasing steps. */
  ghost predicate StepsIncrease(log: seq<Attempt>, verdicts: seq<bool>)
    requires |log| == |verdicts|
  {
    forall i, j :: 0 <= i < j < |log| && verdicts[i] && verdicts[j] && log[i].user == log[j].user
      ==> log[i].step < log[j].step
  }

  /** Where the current step 0 begins: a whole second, as Unix rounds down, less than a period before 1970. */
  const LONG_STEP: int := (1 - TOTP_PERIOD) * SECOND

  /**
   * How long after a match its lock may be taken. One period, from 1970 on;
   * before, the division towards zero makes the current step 0 nearly two
   * periods long, so that the windows around it last longer.
   */
  function MaxWait(since: int): int {
    if since >= 0 then TOTP_PERIOD * SECOND
    else if since > LONG_STEP then since + TOTP_PERIOD * SECOND
    else SECOND
  }

  /** What is matched that much later shares no step with the window before. */
  lemma WindowsApart(since: int, m: int, step: int, later: int, next: int)
    requires since <= m && m + MEMORY_STEP_TTL - MaxWait(since) <= later && InWindow(step, m) && InWindow(next, later)
    ensures step < next
  {
    if m >= 0 {
      assert (m + 3 * TOTP_PERIOD * SECOND) / SECOND == m / SECOND + 3 * TOTP_PERIOD;
      assert m / SECOND + 3 * TOTP_PERIOD <= later / SECOND;
      assert (m / SECOND + 3 * TOTP_PERIOD) / TOTP_PERIOD == m / SECOND / TOTP_PERIOD + 3;
    } else {
      BeforeEpoch(m, step);
      if m >= LONG_STEP {
        AtLeastStep(later, 3);
      } else {
        AtLeastStep(later, 2);
      }
    }
  }

  /** A match before 1970 is for step 1 at most, and before the long step for step 0 only. */
  lemma BeforeEpoch(m: int, step: int)
    requires m < 0 && InWindow(step, m)
    ensures step <= 1 && (1 - 2 * TOTP_PERIOD) * SECOND <= m && (m < LONG_STEP ==> step == 0)
  {
    var u := m / SECOND;
    assert u <= -1 && SECOND * u <= m < SECOND * u + SECOND;
    assert CurrentStep(m) == -((-u) / TOTP_PERIOD);
  }

  lemma AtLeastStep(t: int, c: nat)
    requires c * TOTP_PERIOD * SECOND <= t
    ensures c <= CurrentStep(t)
  {
    assert c * TOTP_PERIOD <= t / SECOND;
  }

  /** The two ends of the longest window that is left. */
  lemma LongestWindow(since: int) returns (m: int, step: int, later: int)
    ensures since <= m <= later == m + MEMORY_STEP_TTL - MaxWait(since) - 1 && InWindow(step, m) && InWindow(step, later)
  {
    if since >= 0 {
      var k := (since + TOTP_PERIOD * SECOND - 1) / (TOTP_PERIOD * SECOND);
      m, step, later := k * TOTP_PERIOD * SECOND, k + 1, (k + 3) * TOTP_PERIOD * SECOND - 1;
      StepAt(k, 0);
      StepAt(k + 2, TOTP_PERIOD * SECOND - 1);
    } else {
      m, step, later := if since > LONG_STEP then since else LONG_STEP, 1, 3 * TOTP_PERIOD * SECOND - 1;
      StepAt(2, TOTP_PERIOD * SECOND - 1);
      assert 1 - TOTP_PERIOD <= m / SECOND < 0;
    }
  }

  lemma StepAt(c: nat, into: int)
    requires 0 <= into < TOTP_PERIOD * SECOND
    ensures CurrentStep(c * TOTP_PERIOD * SECOND + into) == c
  {
    assert (c * TOTP_PERIOD * SECOND + into) / SECOND == c * TOTP_PERIOD + into / SECOND;
  }

  /** The last step a guard accepted for a user: history, beside what it remembers. */
  datatype Grant = Grant(step: int, matchedAt: int, readAt: int)

  type Grants = map<UserId, Grant>

  /** The guard remembers every last grant, or its four periods are over by `now`. */
  ghost predicate Remembers(last: map<UserId, Entry<int>>, grants: Grants, since: int, now: int) {
    && (forall u <- last :: u in grants && last[u] == Entry(grants[u].step, grants[u].readAt + MEMORY_STEP_TTL))
    && (forall u <- grants :: u in last || grants[u].readAt + MEMORY_STEP_TTL <= now)
    && (forall u <- grants :: since <= grants[u].matchedAt <= grants[u].readAt && InWindow(grants[u].step, grants[u].matchedAt))
  }

  function Granted(grants: Grants, a: Attempt, ok: bool): Grants {
    if ok then grants[a.user := Grant(a.step, a.matchedAt, a.readAt)] else grants
  }

  /**
   * One attempt: if accepted, its step is newer than the last one granted, even
   * when that one's record expired or was swept by a call with a later reading.
   */
  lemma AcceptedIsNewer(g: Guard, grants: Grants, since: int, from: int, a: Attempt)
    requires Remembers(g.last, grants, since, from) && from <= a.lockedAt && Timely(a, since, MaxWait(since))
    ensures var (next, ok) := Consume(g, a.readAt, a.user, a.step);
            && Remembers(next.last, Granted(grants, a, ok), since, a.lockedAt)
            && (ok && a.user in grants ==> grants[a.user].step < a.step)
  {
    var (next, ok) := Consume(g, a.readAt, a.user, a.step);
    if ok && a.user in grants && grants[a.user].readAt + MEMORY_STEP_TTL <= a.lockedAt {
      WindowsApart(since, grants[a.user].matchedAt, grants[a.user].step, a.matchedAt, a.step);
    }
  }

  /** Every accepted attempt is newer than the grant its user had. */
  ghost predicate AllNewer(grants: Grants, log: seq<Attempt>, verdicts: seq<bool>)
    requires |log| == |verdicts|
  {
    forall k :: 0 <= k < |log| && verdicts[k] && log[k].user in grants ==> grants[log[k].user].step < log[k].step
  }

  lemma OneMoreInFront(grants: Grants, a: Attempt, ok: bool, rest: seq<Attempt>, verdicts: seq<bool>)
    requires |rest| == |verdicts| && (ok && a.user in grants ==> grants[a.user].step < a.step)
    requires StepsIncrease(rest, verdicts) && AllNewer(Granted(grants, a, ok), rest, verdicts)
    ensures StepsIncrease([a] + rest, [ok] + verdicts) && AllNewer(grants, [a] + rest, [ok] + verdicts)
  {
    var next := Granted(grants, a, ok);
    assert forall u <- grants :: u in next && grants[u].step <= next[u].step;
  }

  lemma LocksLater(log: seq<Attempt>, since: int, delay: int)
    requires log != [] && InLockOrder(log) && forall a <- log :: Timely(a, since, delay)
    ensures InLockOrder(log[1..]) && forall a <- log[1..] :: log[0].lockedAt <= a.lockedAt && Timely(a, since, delay)
  {
    hide Timely;
    forall b | b in log[1..] ensures log[0].lockedAt <= b.lockedAt {
      var k :| 0 <= k < |log[1..]| && log[1..][k] == b;
      assert log[k + 1] == b;
    }
  }

  lemma {:induction false} StepsIncreaseFrom(g: Guard, grants: Grants, since: int, from: int, log: seq<Attempt>)
    requires Remembers(g.last, grants, since, from) && InLockOrder(log)
    requires forall a <- log :: from <= a.lockedAt && Timely(a, since, MaxWait(since))
    ensures StepsIncrease(log, Verdicts(g, log)) && AllNewer(grants, log, Verdicts(g, log))
    decreases |log|
  {
    if log != [] {
      var a, rest := log[0], log[1..];
      var (next, ok) := Consume(g, a.readAt, a.user, a.step);
      hide Consume, Remembers, Timely, MaxWait, StepsIncrease, AllNewer, Granted, InLockOrder;
      AcceptedIsNewer(g, grants, since, from, a);
      LocksLater(log, since, MaxWait(since));
      StepsIncreaseFrom(next, Granted(grants, a, ok), since, a.lockedAt, rest);
      OneMoreInFront(grants, a, ok, rest, Verdicts(next, rest));
      assert log == [a] + rest;
    }
  }

  /**
   * No time step is accepted twice, across expiry and sweeping: the accepted
   * steps of a user strictly increase in the order of the locks, whatever the
   * order of the clock readings, when every lock came soon enough after the
   * match, which from 1970 on means within one full period.
   */
  lemma AcceptedStepsIncrease(log: seq<Attempt>, since: int)
    requires InLockOrder(log) && forall a <- log :: Timely(a, since, MaxWait(since))
    ensures StepsIncrease(log, Verdicts(EMPTY, log))
  {
    StepsIncreaseFrom(EMPTY, map[], since, since, log);
  }

  ghost predicate Safe(since: int, delay: int) {
    forall log ::
      InLockOrder(log) && (forall a <- log :: Timely(a, since, delay)) ==> StepsIncrease(log, Verdicts(EMPTY, log))
  }

  /** The bound on the delay is exact, for whatever clocks show. */
  lemma WaitExactly(since: int, delay: int)
    ensures Safe(since, delay) <==> delay <= MaxWait(since)
  {
    if delay <= MaxWait(since) {
      forall log | InLockOrder(log) && forall a <- log :: Timely(a, since, delay)
        ensures StepsIncrease(log, Verdicts(EMPTY, log))
      {
        AcceptedStepsIncrease(log, since);
      }
    } else {
      var log := LongerDelayReplays(since, delay);
      assert !StepsIncrease(log, Verdicts(EMPTY, log));
    }
  }

  /** From 1970 on it is one period, */
  lemma DelayBoundExact(delay: int)
    ensures Safe(0, delay) <==> delay <= TOTP_PERIOD * SECOND
  {
    WaitExactly(0, delay);
  }

  /** and one period is safe only from 1970 on. */
  lemma EpochBoundExact(since: int)
    ensures Safe(since, TOTP_PERIOD * SECOND) <==> 0 <= since
  {
    WaitExactly(since, TOTP_PERIOD * SECOND);
  }

  lemma TwoVerdicts(g: Guard, a: Attempt, b: Attempt)
    ensures var (next, ok) := Consume(g, a.readAt, a.user, a.step);
            Verdicts(g, [a, b]) == [ok, Consume(next, b.readAt, b.user, b.step).1]
  {
    assert [a, b][1..] == [b] && [b][1..] == [];
  }

  /** With any longer delay allowed, some step is accepted twice. */
  lemma LongerDelayReplays(since: int, delay: int) returns (log: seq<Attempt>)
    requires delay > MaxWait(since)
    ensures InLockOrder(log) && (forall a <- log :: Timely(a, since, delay))
    ensures |log| == 2 && Verdicts(EMPTY, log) == [true, true]
    ensures log[0].user == log[1].user && log[0].step == log[1].step
  {
    var m, step, later := LongestWindow(since);
    hide InWindow;
    var a, b := Attempt(0, m, m, m, step), Attempt(0, later, m + MEMORY_STEP_TTL, m + MEMORY_STEP_TTL, step);
    TwoVerdicts(EMPTY, a, b);
    log := [a, b];
  }

  /**
   * It is the lock that counts, not the reading: a call that reads the clock in
   * time and then waits for the lock while another user's call sweeps is
   * accepted with a step already spent.
   */
  lemma EarlyReadingReplays() returns (log: seq<Attempt>)
    ensures InLockOrder(log) && forall a <- log :: 0 <= a.matchedAt <= a.readAt <= a.matchedAt + SECOND && InWindow(a.step, a.matchedAt)
    ensures |log| == 3 && Verdicts(EMPTY, log) == [true, true, true]
    ensures log[0].user == log[2].user && log[0].step == log[2].step
  {
    var a := Attempt(0, 0, 0, 0, 1);
    var b := Attempt(1, 120 * SECOND, 120 * SECOND, 120 * SECOND, 4);
    var c := Attempt(0, 90 * SECOND - 1, 90 * SECOND, 121 * SECOND, 1);
    assert CurrentStep(0) == 0 && CurrentStep(120 * SECOND) == 4;
    assert (90 * SECOND - 1) / SECOND == 89 && CurrentStep(90 * SECOND - 1) == 2;
    log := [a, b, c];
    assert log[1..] == [b, c];
    TwoVerdicts(Consume(EMPTY, a.readAt, a.user, a.step).0, b, c);
  }

  /** A clock set before 1970 replays, however soon the locks come within a period. */
  lemma ClockBefore1970Replays(since: int) returns (log: seq<Attempt>)
    requires since < 0
    ensures InLockOrder(log) && (forall a <- log :: Timely(a, since, TOTP_PERIOD * SECOND))
    ensures |log| == 2 && Verdicts(EMPTY, log) == [true, true]
    ensures log[0].user == log[1].user && log[0].step == log[1].step
  {
    log := LongerDelayReplays(since, TOTP_PERIOD * SECOND);
  }
}
