/**
 * Login challenges (internal/auth/totp_challenge.go and VerifyTOTPLogin): one
 * challenge mints at most one session. The in-process guard is a class proved
 * against a reference that never forgets.
 */
module TotpChallenge {
  import opened Wrappers
  import opened ExpiringMap

  const MINUTE: int := 60 * 1_000_000_000
  const TOTP_CHALLENGE_TTL: int := 5 * MINUTE
  const CHALLENGE_BURN_SLACK: int := MINUTE
  const ZERO_TIME: int := -62_135_596_800 * 1_000_000_000

  type Jti = nat
  type Burns = map<Jti, Entry<()>>

  datatype Guard = Guard(spent: Burns, lastSweep: int)

  const EMPTY: Guard := Guard(map[], ZERO_TIME)

  predicate Burned(spent: Burns, now: int, jti: Jti) {
    jti in spent && now < spent[jti].expiresAt
  }

  function Burn(spent: Burns, now: int, jti: Jti, ttl: int): Burns {
    spent[jti := Entry((), now + ttl)]
  }

  /** One RedeemTOTPChallenge: the next state and whether this call was the first. */
  function Redeem(g: Guard, now: int, jti: Jti, ttl: int): (Guard, bool) {
    var due := now - g.lastSweep >= TOTP_CHALLENGE_TTL;
    var spent := if due then Live(g.spent, now) else g.spent;
    var swept := if due then now else g.lastSweep;
    if Burned(spent, now, jti) then (Guard(spent, swept), false)
    else (Guard(Burn(spent, now, jti, ttl), swept), true)
  }

  /** The reference without a sweep. */
  function RedeemRef(spent: Burns, now: int, jti: Jti, ttl: int): (Burns, bool) {
    if Burned(spent, now, jti) then (spent, false) else (Burn(spent, now, jti, ttl), true)
  }

  /** How a question to the shared guard goes: it may fail before or after the challenge is recorded. */
  datatype Answer = Answers | Fails | RecordsThenFails

  /** The shared guard: SET NX on a key that expires, which refuses an expiry that is not ahead. */
  function SharedRedeem(spent: Burns, now: int, jti: Jti, ttl: int, answer: Answer): (Burns, Option<bool>) {
    if answer.Fails? || ttl <= 0 then (spent, None)
    else
      var (next, first) := RedeemRef(spent, now, jti, ttl);
      (next, if answer.Answers? then Some(first) else None)
  }

  class MemoryTOTPChallengeGuard {
    var spent: Burns
    var lastSweep: int

    ghost function Value(): Guard
      reads this
    {
      Guard(spent, lastSweep)
    }

    constructor ()
      ensures Value() == EMPTY
    {
      spent, lastSweep := map[], ZERO_TIME;
    }

    /**
     * What happens under the mutex, hence in one piece. The clock was read
     * before the lock: readings need not reach the guard in their order.
     */
    method RedeemTOTPChallenge(now: int, jti: Jti, ttl: int) returns (first: bool)
      modifies this
      ensures (Value(), first) == Redeem(old(Value()), now, jti, ttl)
    {
      if now - lastSweep >= TOTP_CHALLENGE_TTL {
        spent := Sweep(spent, now);
        lastSweep := now;
      }
      if jti in spent && now < spent[jti].expiresAt {
        return false;
      }
      spent := spent[jti := Entry((), now + ttl)];
      first := true;
    }
  }

  datatype Attempt = Attempt(now: int, jti: Jti, ttl: int)

  function Verdicts(g: Guard, log: seq<Attempt>): (r: seq<bool>)
    ensures |r| == |log|
    decreases |log|
  {
    if log == [] then []
    else
      var (next, ok) := Redeem(g, log[0].now, log[0].jti, log[0].ttl);
      [ok] + Verdicts(next, log[1..])
  }

  function VerdictsRef(spent: Burns, log: seq<Attempt>): seq<bool>
    decreases |log|
  {
    if log == [] then []
    else
      var (next, ok) := RedeemRef(spent, log[0].now, log[0].jti, log[0].ttl);
      [ok] + VerdictsRef(next, log[1..])
  }

  predicate Nondecreasing(from: int, log: seq<Attempt>)
    decreases |log|
  {
    log == [] || (from <= log[0].now && Nondecreasing(log[0].now, log[1..]))
  }

  lemma {:induction false} VerdictsAgree(g: Guard, ref: Burns, from: int, log: seq<Attempt>)
    requires Agree(g.spent, ref, from) && Nondecreasing(from, log)
    ensures Verdicts(g, log) == VerdictsRef(ref, log)
    decreases |log|
  {
    if log != [] {
      var a := log[0];
      AgreeLater(g.spent, ref, from, a.now);
      var due := a.now - g.lastSweep >= TOTP_CHALLENGE_TTL;
      var spent := if due then Live(g.spent, a.now) else g.spent;
      AgreeAt(spent, ref, a.now, a.jti);
      AgreeStore(spent, ref, a.now, a.jti, Entry((), a.now + a.ttl));
      VerdictsAgree(Redeem(g, a.now, a.jti, a.ttl).0, RedeemRef(ref, a.now, a.jti, a.ttl).0, a.now, log[1..]);
    }
  }

  /**
   * What the guard holds stays bounded and is given up only when it is due: no
   * call leaves the last sweep five minutes behind its reading, and another
   * challenge's entry goes exactly if a sweep was due and the entry had expired.
   */
  lemma KeepsAndForgets(g: Guard, now: int, jti: Jti, ttl: int, other: Jti)
    requires other != jti && other in g.spent
    ensures var next := Redeem(g, now, jti, ttl).0;
            && now < next.lastSweep + 5 * MINUTE
            && (other !in next.spent <==> g.lastSweep + 5 * MINUTE <= now && g.spent[other].expiresAt <= now)
            && (other in next.spent ==> next.spent[other] == g.spent[other])
  {
  }

  /**
   * The shared guard grants only what it can remember: with an expiry that is
   * not ahead it answers nothing, and what it has granted it grants to nobody
   * until then.
   */
  lemma GrantIsRemembered(spent: Burns, now: int, jti: Jti, ttl: int, answer: Answer)
    ensures var (next, told) := SharedRedeem(spent, now, jti, ttl, answer);
            && (told.Some? ==> ttl > 0)
            && (told == Some(true) ==>
                  forall later: int, again: int, reply: Answer :: now <= later < now + ttl ==>
                    SharedRedeem(next, later, jti, again, reply).1 != Some(true))
            && (answer.Answers? && ttl > 0 && told != Some(true) ==> jti in spent && now < spent[jti].expiresAt)
  {
  }

  lemma {:induction false} RefusedFrom(g: Guard, log: seq<Attempt>, k: nat)
    requires k < |log| && !Verdicts(g, log)[k]
    ensures (exists i :: 0 <= i < k && Verdicts(g, log)[i] && log[i].jti == log[k].jti && log[k].now < log[i].now + log[i].ttl)
            || (log[k].jti in g.spent && log[k].now < g.spent[log[k].jti].expiresAt)
    decreases |log|
  {
    if k > 0 {
      var a, rest := log[0], log[1..];
      var (next, ok) := Redeem(g, a.now, a.jti, a.ttl);
      RefusedFrom(next, rest, k - 1);
      if i :| 0 <= i < k - 1 && Verdicts(next, rest)[i] && rest[i].jti == rest[k - 1].jti && rest[k - 1].now < rest[i].now + rest[i].ttl {
        assert Verdicts(g, log)[i + 1] && log[i + 1] == rest[i];
      } else if ok && a.jti == log[k].jti {
        assert Verdicts(g, log)[0];
      }
    }
  }

  /** A redeem is refused only while an earlier one of the same challenge, which won, is on record. */
  lemma RefusedOnlyWhenRedeemed(log: seq<Attempt>, k: nat)
    requires k < |log| && !Verdicts(EMPTY, log)[k]
    ensures exists i :: 0 <= i < k && Verdicts(EMPTY, log)[i] && log[i].jti == log[k].jti && log[k].now < log[i].now + log[i].ttl
  {
    RefusedFrom(EMPTY, log, k);
  }

  /** Sweeping is unobservable: call by call, for every sequence of calls with nondecreasing times. */
  lemma SweepingUnobservable(log: seq<Attempt>, from: int)
    requires Nondecreasing(from, log)
    ensures Verdicts(EMPTY, log) == VerdictsRef(map[], log)
  {
    VerdictsAgree(EMPTY, map[], from, log);
  }
}

/** redeemTOTPChallenge as one call makes it. */
module TotpChallengeService {
  import opened Wrappers
  import opened ExpiringMap
  import opened TotpChallenge

  datatype GuardError = GuardError

  /** The shared record. */
  class SharedChallengeGuard {
    var spent: Burns

    constructor ()
      ensures spent == map[]
    {
      spent := map[];
    }

    method RedeemTOTPChallenge(now: int, jti: Jti, ttl: int, answer: Answer) returns (r: Result<bool, GuardError>)
      modifies this
      ensures var (next, told) := SharedRedeem(old(spent), now, jti, ttl, answer);
              spent == next && r == if told.Some? then Ok(told.value) else Err(GuardError)
    {
      r := Err(GuardError);
      if answer.Fails? || ttl <= 0 {
        return;
      }
      var first := !(jti in spent && now < spent[jti].expiresAt);
      if first {
        spent := spent[jti := Entry((), now + ttl)];
      }
      if answer.Answers? {
        r := Ok(first);
      }
    }
  }

  /** What other calls make of the two guards between this call's two questions: anything. */
  type Meanwhile = (Guard, Burns) -> (Guard, Burns)

  method Interfere(local: MemoryTOTPChallengeGuard, shared: SharedChallengeGuard, others: Meanwhile)
    modifies local, shared
    ensures (local.Value(), shared.spent) == others(old(local.Value()), old(shared.spent))
  {
    var (guard, burns) := others(Guard(local.spent, local.lastSweep), shared.spent);
    local.spent, local.lastSweep := guard.spent, guard.lastSweep;
    shared.spent := burns;
  }

  /**
   * The two steps AskShared and AskLocal of TotpLogin with anything in between:
   * the shared guard goes first, and a loss there leaves the local record
   * alone. A null shared guard is one that is not wired. `now` is this
   * instance's clock at the start, `asked` the shared guard's when it is asked,
   * `later` the local guard's reading.
   */
  method RedeemTOTPChallenge(local: MemoryTOTPChallengeGuard, shared: SharedChallengeGuard?, others: Meanwhile,
                             now: int, asked: int, later: int, jti: Jti, expiresAt: int, answer: Answer)
    returns (redeemed: bool)
    modifies local, if shared == null then {} else {shared}
    ensures var ttl := expiresAt - now + CHALLENGE_BURN_SLACK;
            shared == null ==> (local.Value(), redeemed) == Redeem(old(local.Value()), later, jti, ttl)
    ensures shared != null ==>
              var ttl := expiresAt - now + CHALLENGE_BURN_SLACK;
              var (next, told) := SharedRedeem(old(shared.spent), asked, jti, ttl, answer);
              var (guard, burns) := others(old(local.Value()), next);
              if told == Some(false) then
                !redeemed && shared.spent == next && local.Value() == old(local.Value())
              else
                shared.spent == burns && (local.Value(), redeemed) == Redeem(guard, later, jti, ttl)
  {
    var ttl := expiresAt - now + CHALLENGE_BURN_SLACK;
    if shared != null {
      var r := shared.RedeemTOTPChallenge(asked, jti, ttl, answer);
      if r.Ok? && !r.value {
        return false;
      }
      Interfere(local, shared, others);
    }
    redeemed := local.RedeemTOTPChallenge(later, jti, ttl);
  }
}
