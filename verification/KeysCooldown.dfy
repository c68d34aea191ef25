/** The per-recipient cooldown on fetching prekey bundles, pkg/signal/send.go:416-487.
    Times and durations are nanoseconds; the clock never runs backwards. */
module KeysCooldown {
  import opened Wrappers

  type Aci = string

  const SECOND := 1_000_000_000
  const DEFAULT_BACKOFF := 2 * SECOND
  const MAX_BACKOFF := 300 * SECOND

  /** What the network would answer; `retryAfter` is the parsed header, 0 when absent. */
  datatype Reply = Bundle | TooManyRequests(retryAfter: int) | OtherError

  /** One fetch: when it starts, and when the network would answer it. */
  datatype Fetch = Fetch(aci: Aci, start: int, end: int, reply: Reply)

  datatype Outcome = Refused(retryAfter: int) | Network(reply: Reply)

  /** keysRateLimitBackoff */
  function BackoffOf(reply: Reply): Option<int> {
    if !reply.TooManyRequests? then None
    else if reply.retryAfter > 0 then Some(reply.retryAfter)
    else Some(DEFAULT_BACKOFF)
  }

  /** The clamping at the head of setKeysRateLimit */
  function Clamp(backoff: int): (d: int)
    ensures backoff <= 0 ==> d == 2_000_000_000
    ensures 0 < backoff <= 300_000_000_000 ==> d == backoff
    ensures backoff > 300_000_000_000 ==> d == 300_000_000_000
  {
    var b := if backoff <= 0 then DEFAULT_BACKOFF else backoff;
    if b > MAX_BACKOFF then MAX_BACKOFF else b
  }

  /** When the cooldown ends that a 429 reply to `f` starts. */
  function CooldownEnd(f: Fetch): (end: int)
    requires f.reply.TooManyRequests?
    ensures f.reply.retryAfter <= 0 ==> end == f.end + 2_000_000_000
    ensures 0 < f.reply.retryAfter <= 300_000_000_000 ==> end == f.end + f.reply.retryAfter
    ensures f.reply.retryAfter > 300_000_000_000 ==> end == f.end + 300_000_000_000
  {
    f.end + Clamp(BackoffOf(f.reply).value)
  }

  /** fetchPreKeyBundleDefensive, as a function of the cooldown table. */
  function Attempt(until: map<Aci, int>, f: Fetch): (map<Aci, int>, Outcome) {
    if f.aci in until && until[f.aci] - f.start > 0 then (until, Refused(until[f.aci] - f.start))
    else
      var open := until - {f.aci};
      (if f.reply.TooManyRequests? then open[f.aci := CooldownEnd(f)] else open, Network(f.reply))
  }

  function After(fs: seq<Fetch>): map<Aci, int> {
    if fs == [] then map[] else Attempt(After(fs[..|fs| - 1]), fs[|fs| - 1]).0
  }

  function OutcomeAt(fs: seq<Fetch>, i: nat): Outcome
    requires i < |fs|
  {
    Attempt(After(fs[..i]), fs[i]).1
  }

  /** A sequential run: each fetch starts after the one before it was answered. */
  ghost predicate Sequential(fs: seq<Fetch>) {
    && (forall i :: 0 <= i < |fs| ==> fs[i].start <= fs[i].end)
    && (forall i, j :: 0 <= i < j < |fs| ==> fs[i].end <= fs[j].start)
  }

  lemma AfterStep(fs: seq<Fetch>, j: nat)
    requires j < |fs|
    ensures After(fs[..j + 1]) == Attempt(After(fs[..j]), fs[j]).0
  {
    assert fs[..j + 1][..j] == fs[..j];
  }

  /** The cooldown set by the 429 at i is still the one in force before fetch j. */
  lemma {:induction false} CooldownStands(fs: seq<Fetch>, i: nat, j: nat)
    requires Sequential(fs) && i < j < |fs|
    requires OutcomeAt(fs, i).Network? && fs[i].reply.TooManyRequests?
    requires fs[j].start < CooldownEnd(fs[i])
    ensures fs[i].aci in After(fs[..j]) && After(fs[..j])[fs[i].aci] == CooldownEnd(fs[i])
    decreases j
  {
    AfterStep(fs, j - 1);
    if j > i + 1 {
      assert fs[j - 1].start <= fs[j].start;
      CooldownStands(fs, i, j - 1);
    }
  }

  /** After a 429 no fetch for that recipient reaches the network until the cooldown ends,
      however often it is tried, and each refusal states exactly the time left. */
  lemma NoFetchDuringCooldown(fs: seq<Fetch>, i: nat, j: nat)
    requires Sequential(fs) && i < j < |fs| && fs[j].aci == fs[i].aci
    requires OutcomeAt(fs, i).Network? && fs[i].reply.TooManyRequests?
    requires fs[j].start < CooldownEnd(fs[i])
    ensures OutcomeAt(fs, j) == Refused(CooldownEnd(fs[i]) - fs[j].start)
  {
    CooldownStands(fs, i, j);
  }

  /** Every refusal has its 429: one that reached the network earlier in the run. */
  lemma {:induction false} CooldownsComeFrom429(fs: seq<Fetch>, aci: Aci) returns (i: nat)
    requires Sequential(fs) && aci in After(fs)
    ensures i < |fs| && fs[i].aci == aci && OutcomeAt(fs, i).Network? && fs[i].reply.TooManyRequests?
    ensures After(fs)[aci] == CooldownEnd(fs[i])
  {
    var n := |fs| - 1;
    var front := fs[..n];
    if Attempt(After(front), fs[n]).1.Network? && fs[n].aci == aci {
      i := n;
    } else {
      i := CooldownsComeFrom429(front, aci);
      assert front[..i] == fs[..i];
    }
  }

  /** Exactly when a fetch is refused: when its start lies before the end of the cooldown of an
      earlier 429 for its recipient. Any other fetch is answered by the network. */
  lemma RefusedExactly(fs: seq<Fetch>, j: nat)
    requires Sequential(fs) && j < |fs|
    ensures OutcomeAt(fs, j).Refused? <==>
      exists i :: 0 <= i < j && fs[i].aci == fs[j].aci && OutcomeAt(fs, i).Network?
                  && fs[i].reply.TooManyRequests? && fs[j].start < CooldownEnd(fs[i])
    ensures !OutcomeAt(fs, j).Refused? ==> OutcomeAt(fs, j) == Network(fs[j].reply)
  {
    hide Sequential, CooldownEnd;
    if OutcomeAt(fs, j).Refused? {
      SequentialPrefix(fs, j);
      var i := CooldownsComeFrom429(fs[..j], fs[j].aci);
      assert fs[..j][..i] == fs[..i];
    } else if i :| 0 <= i < j && fs[i].aci == fs[j].aci && OutcomeAt(fs, i).Network?
                   && fs[i].reply.TooManyRequests? && fs[j].start < CooldownEnd(fs[i])
    {
      NoFetchDuringCooldown(fs, i, j);
    }
  }

  lemma SequentialPrefix(fs: seq<Fetch>, j: nat)
    requires Sequential(fs) && j <= |fs|
    ensures Sequential(fs[..j])
  {}

  lemma RefusalsAreShort(fs: seq<Fetch>, j: nat)
    requires Sequential(fs) && j < |fs| && OutcomeAt(fs, j).Refused?
    ensures 0 < OutcomeAt(fs, j).retryAfter <= 300_000_000_000
  {
    var i := CooldownsComeFrom429(fs[..j], fs[j].aci);
    assert fs[..j][..i] == fs[..i];
    assert fs[i].end <= fs[j].start;
  }

  /** Waiting the stated time lets the next fetch through: the first one for the recipient that
      starts no sooner reaches the network. */
  lemma {:induction false} WaitingIsEnough(fs: seq<Fetch>, i: nat, j: nat)
    requires Sequential(fs) && i < j < |fs| && fs[j].aci == fs[i].aci
    requires OutcomeAt(fs, i).Refused?
    requires fs[i].start + OutcomeAt(fs, i).retryAfter <= fs[j].start
    requires forall k :: i < k < j && fs[k].aci == fs[i].aci ==>
      fs[k].start < fs[i].start + OutcomeAt(fs, i).retryAfter
    ensures OutcomeAt(fs, j) == Network(fs[j].reply)
  {
    RefusalKeepsTable(fs, i, j);
  }

  lemma {:induction false} RefusalKeepsTable(fs: seq<Fetch>, i: nat, j: nat)
    requires i < j <= |fs| && OutcomeAt(fs, i).Refused?
    requires forall k :: i < k < j && fs[k].aci == fs[i].aci ==>
      fs[k].start < fs[i].start + OutcomeAt(fs, i).retryAfter
    ensures fs[i].aci in After(fs[..j])
    ensures After(fs[..j])[fs[i].aci] == fs[i].start + OutcomeAt(fs, i).retryAfter
    decreases j
  {
    AfterStep(fs, j - 1);
    if j > i + 1 {
      RefusalKeepsTable(fs, i, j - 1);
    }
  }

  class Cooldowns {
    var until: map<Aci, int>

    constructor ()
      ensures until == After([])
    {
      until := map[];
    }

    /** How long a fetch for the recipient at that time has to wait, if it is refused */
    ghost function Refusal(aci: Aci, at: int): Option<int>
      reads this
    {
      if aci in until && at < until[aci] then Some(until[aci] - at) else None
    }

    /** keysRateLimitGate; an expired entry is dropped on the way, which no later fetch notices. */
    method Gate(aci: Aci, now: int) returns (refusal: Option<int>)
      modifies this
      ensures refusal.Some? <==> aci in old(until) && now < old(until)[aci]
      ensures refusal.Some? ==> refusal.value == old(until)[aci] - now && until == old(until)
      ensures refusal.None? ==> until == old(until) - {aci}
      ensures forall b, at :: at >= now ==> Refusal(b, at) == old(Refusal(b, at))
    {
      if aci !in until {
        return None;
      }
      var remaining := until[aci] - now;
      if remaining <= 0 {
        until := until - {aci};
        return None;
      }
      return Some(remaining);
    }

    method SetKeysRateLimit(aci: Aci, backoff: int, now: int)
      modifies this
      ensures until == old(until)[aci := now + Clamp(backoff)]
      ensures forall at :: Refusal(aci, at) == if at - now < Clamp(backoff) then Some(Clamp(backoff) - (at - now)) else None
    {
      var b := backoff;
      if b <= 0 {
        b := DEFAULT_BACKOFF;
      }
      if b > MAX_BACKOFF {
        b := MAX_BACKOFF;
      }
      until := until[aci := now + b];
    }

    method ClearKeysRateLimit(aci: Aci)
      modifies this
      ensures until == old(until) - {aci}
      ensures forall b, at :: Refusal(b, at) == if b == aci then None else old(Refusal(b, at))
    {
      until := until - {aci};
    }

    method FetchDefensively(f: Fetch) returns (r: Outcome)
      modifies this
      ensures (until, r) == Attempt(old(until), f)
    {
      var refusal := Gate(f.aci, f.start);
      if refusal.Some? {
        return Refused(refusal.value);
      }
      if f.reply.Bundle? {
        ClearKeysRateLimit(f.aci);
        assert until == old(until) - {f.aci};
      } else {
        var backoff := BackoffOf(f.reply);
        if backoff.Some? {
          SetKeysRateLimit(f.aci, backoff.value, f.end);
        }
      }
      return Network(f.reply);
    }
  }
}
