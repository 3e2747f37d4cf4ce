/**
 The retry leader lease (internal/retry/leader.go) and the tick loop that guards
 every retry pass with it (internal/retry/scheduler.go).

 Time is counted in milliseconds.  Each Redis command is one atomic step on the
 shared key; its reply reaches the instance later, or never.
 */
module Lease {
  import opened Wrappers

  /** The shared Redis key: absent, or holding an owner until it expires. */
  datatype Key = Unset | Held(owner: string, expiresAt: int)

  /** How long a pass may run before its context times out. */
  const PASS_LIMIT: int := 30_000

  /** The time to live that the server configures for the lease. */
  const DEPLOYED_TTL: int := 120_000

  /** What GET answers. */
  function Owner(key: Key, now: int): Option<string> {
    if key.Held? && now < key.expiresAt then Some(key.owner) else None
  }

  /** What a renewal adds to the clock: EXPIRE takes whole seconds, truncated. */
  function RenewedLifetime(ttl: nat): nat {
    ttl / 1000 * 1000
  }

  /** SET key id NX PX ttl. */
  function Claimed(key: Key, id: string, ttl: nat, now: int): Key {
    if Owner(key, now).None? then Held(id, now + ttl) else key
  }

  /** EXPIRE under the owner check; EXPIRE with zero seconds deletes the key. */
  function Renewed(key: Key, id: string, ttl: nat, now: int): Key {
    if Owner(key, now) != Some(id) then key
    else if RenewedLifetime(ttl) == 0 then Unset
    else Held(id, now + RenewedLifetime(ttl))
  }

  /** The fate of one command: executed and answered, or lost on the way there or back. */
  datatype Network = Answered | RequestLost | ReplyLost

  class RedisKey {
    var value: Key

    constructor ()
      ensures value == Unset
    {
      value := Unset;
    }
  }

  class LeaderElection {
    const client: RedisKey
    const ttl: nat
    const id: string

    constructor (client: RedisKey, id: string, ttl: nat)
      ensures this.client == client && this.id == id && this.ttl == ttl
    {
      this.client := client;
      this.id := id;
      this.ttl := ttl;
    }

    method IsLeader(now: int, network: Network) returns (leader: bool)
      ensures leader <==> network.Answered? && Owner(client.value, now) == Some(id)
    {
      if network != Answered {
        return false;
      }
      var val := Owner(client.value, now);
      leader := val.Some? && val.value == id;
    }

    method TryClaim(now: int, network: Network) returns (won: bool)
      modifies client
      ensures client.value == if network.RequestLost? then old(client.value)
                              else Claimed(old(client.value), id, ttl, now)
      ensures won <==> network.Answered? && Owner(old(client.value), now).None?
      ensures won ==> forall t | t >= now :: Owner(client.value, t) == if t < now + ttl then Some(id) else None
    {
      if network == RequestLost {
        return false;
      }
      var wasSet := Owner(client.value, now).None?;
      if wasSet {
        client.value := Held(id, now + ttl);
      }
      won := network == Answered && wasSet;
    }

    method Renew(now: int, network: Network) returns (renewed: bool)
      modifies client
      ensures client.value == if network.RequestLost? then old(client.value)
                              else Renewed(old(client.value), id, ttl, now)
      ensures renewed <==> network.Answered? && Owner(old(client.value), now) == Some(id)
      ensures renewed ==>
                forall t | t >= now :: Owner(client.value, t) == if t < now + ttl / 1000 * 1000 then Some(id) else None
    {
      if network == RequestLost {
        return false;
      }
      var owned := Owner(client.value, now) == Some(id);
      if owned {
        var seconds := ttl / 1000;
        if seconds == 0 {
          client.value := Unset;
        } else {
          client.value := Held(id, now + seconds * 1000);
        }
      }
      renewed := network == Answered && owned;
    }
  }

  // ------------------------------------------------------------------
  // Any number of scheduler instances around one key.

  /** `delay` bounds the time from the execution of a successful command to the start of the pass. */
  datatype Config = Config(ids: seq<string>, ttl: nat, delay: nat)

  datatype Phase =
    | Idle
    | Checked(leader: bool)
    | Granted(at: int)
    | Working(at: int, since: int)

  datatype State = State(now: int, key: Key, phases: seq<Phase>)

  datatype Step =
    | Advance(to: int)
    | Tick(i: nat, readNetwork: Network)
    | Decide(i: nat, network: Network)
    | Start(i: nat)
    | Stop(i: nat)

  function Initial(cfg: Config): State {
    State(0, Unset, seq(|cfg.ids|, _ => Idle))
  }

  /** No instance overstays: a granted pass starts within `delay`, a running one ends within the limit. */
  predicate InTime(cfg: Config, phase: Phase, now: int) {
    match phase
    case Granted(at) => now <= at + cfg.delay
    case Working(_, since) => now <= since + PASS_LIMIT
    case _ => true
  }

  predicate Enabled(cfg: Config, s: State, step: Step) {
    match step
    case Advance(to) => s.now <= to && forall i | 0 <= i < |s.phases| :: InTime(cfg, s.phases[i], to)
    case Tick(i, _) => i < |s.phases| && s.phases[i].Idle?
    case Decide(i, _) => i < |s.phases| && s.phases[i].Checked?
    case Start(i) => i < |s.phases| && s.phases[i].Granted?
    case Stop(i) => i < |s.phases|
  }

  /** One atomic step; a step that is not enabled changes nothing. */
  function Apply(cfg: Config, s: State, step: Step): State
    requires |s.phases| == |cfg.ids|
  {
    if !Enabled(cfg, s, step) then s else
    match step
    case Advance(to) => s.(now := to)
    case Tick(i, network) =>
      // The read may be stale by the time it is acted on: nothing below relies on it.
      s.(phases := s.phases[i := Checked(network.Answered? && Owner(s.key, s.now) == Some(cfg.ids[i]))])
    case Decide(i, network) =>
      var leader, owner := s.phases[i].leader, Owner(s.key, s.now);
      var key := if network.RequestLost? then s.key
                 else if leader then Renewed(s.key, cfg.ids[i], cfg.ttl, s.now)
                 else Claimed(s.key, cfg.ids[i], cfg.ttl, s.now);
      var won := network.Answered? && owner == if leader then Some(cfg.ids[i]) else None;
      State(s.now, key, s.phases[i := if won then Granted(s.now) else Idle])
    case Start(i) => s.(phases := s.phases[i := Working(s.phases[i].at, s.now)])
    case Stop(i) =>
      // The pass ends, or the instance is cancelled or restarts.
      s.(phases := s.phases[i := Idle])
  }

  function After(cfg: Config, steps: seq<Step>): (s: State)
    ensures |s.phases| == |cfg.ids|
  {
    if steps == [] then Initial(cfg)
    else Apply(cfg, After(cfg, steps[..|steps| - 1]), steps[|steps| - 1])
  }

  ghost predicate TwoWorking(s: State) {
    exists i, j | 0 <= i < j < |s.phases| :: s.phases[i].Working? && s.phases[j].Working?
  }

  /** No two instances are ever inside a retry pass at once, in any run. */
  ghost predicate Exclusive(cfg: Config) {
    forall steps :: !TwoWorking(After(cfg, steps))
  }

  ghost predicate Distinct(ids: seq<string>) {
    forall i, j | 0 <= i < j < |ids| :: ids[i] != ids[j]
  }

  ghost predicate LeaseOutlivesPass(cfg: Config) {
    cfg.delay + PASS_LIMIT < RenewedLifetime(cfg.ttl)
  }

  // ------------------------------------------------------------------
  // Safety

  /** What an instance that was granted a pass at `at` knows about the key. */
  ghost predicate Backed(cfg: Config, s: State, i: nat)
    requires i < |cfg.ids| == |s.phases|
  {
    var phase := s.phases[i];
    && InTime(cfg, phase, s.now)
    && (phase.Working? ==> phase.since <= phase.at + cfg.delay)
    && (phase.Granted? || phase.Working? ==>
          && phase.at <= s.now
          && s.key.Held?
          && s.key.owner == cfg.ids[i]
          && phase.at + RenewedLifetime(cfg.ttl) <= s.key.expiresAt)
  }

  ghost predicate Inv(cfg: Config, s: State) {
    && |s.phases| == |cfg.ids|
    && forall i | 0 <= i < |cfg.ids| :: Backed(cfg, s, i)
  }

  lemma StepKeepsInv(cfg: Config, s: State, step: Step)
    requires Distinct(cfg.ids) && LeaseOutlivesPass(cfg)
    requires Inv(cfg, s)
    ensures Inv(cfg, Apply(cfg, s, step))
  {
    var s' := Apply(cfg, s, step);
    forall i | 0 <= i < |cfg.ids|
      ensures Backed(cfg, s', i)
    {
      assert Backed(cfg, s, i);
      if step.Decide? && step.i != i && step.i < |cfg.ids| {
        assert cfg.ids[step.i] != cfg.ids[i];
      }
    }
  }

  lemma {:induction false} RunKeepsInv(cfg: Config, steps: seq<Step>)
    requires Distinct(cfg.ids) && LeaseOutlivesPass(cfg)
    ensures Inv(cfg, After(cfg, steps))
  {
    if steps != [] {
      RunKeepsInv(cfg, steps[..|steps| - 1]);
      StepKeepsInv(cfg, After(cfg, steps[..|steps| - 1]), steps[|steps| - 1]);
    }
  }

  lemma MutualExclusion(cfg: Config, steps: seq<Step>)
    requires Distinct(cfg.ids) && LeaseOutlivesPass(cfg)
    ensures !TwoWorking(After(cfg, steps))
  {
    RunKeepsInv(cfg, steps);
    var s := After(cfg, steps);
    forall i, j | 0 <= i < j < |s.phases|
      ensures !(s.phases[i].Working? && s.phases[j].Working?)
    {
      assert Backed(cfg, s, i) && Backed(cfg, s, j);
    }
  }

  // ------------------------------------------------------------------
  // Failover: the lease of an instance that falls silent passes on when it ends, not before

  function Resumed(cfg: Config, s: State, later: seq<Step>): (s': State)
    requires |s.phases| == |cfg.ids|
    ensures |s'.phases| == |cfg.ids|
  {
    if later == [] then s else Apply(cfg, Resumed(cfg, s, later[..|later| - 1]), later[|later| - 1])
  }

  /** Instance `i` executes the command that gives it the lease, whether or not it hears of it. */
  predicate Obtains(cfg: Config, s: State, i: nat, network: Network)
    requires |s.phases| == |cfg.ids|
  {
    && i < |cfg.ids| && s.phases[i].Checked? && !network.RequestLost?
    && Owner(s.key, s.now) == if s.phases[i].leader then Some(cfg.ids[i]) else None
  }

  /** How long it gets it for: a claim for the TTL, a renewal for its whole seconds. */
  function Lifetime(cfg: Config, s: State, i: nat): nat
    requires i < |s.phases| && s.phases[i].Checked?
  {
    if s.phases[i].leader then cfg.ttl / 1000 * 1000 else cfg.ttl
  }

  /** No command under `id` is executed, and others execute theirs only before `end`. */
  ghost predicate Silent(cfg: Config, s: State, later: seq<Step>, id: string, end: int)
    requires |s.phases| == |cfg.ids|
  {
    forall n | 0 <= n < |later| && later[n].Decide? && !later[n].network.RequestLost? && later[n].i < |cfg.ids| ::
      cfg.ids[later[n].i] != id && Resumed(cfg, s, later[..n]).now < end
  }

  /** The key names `id` up to `end` and nobody from then on. */
  ghost predicate HeldUntil(key: Key, id: string, now: int, end: int) {
    forall t | t >= now :: Owner(key, t) == if t < end then Some(id) else None
  }

  lemma ObtainedKey(cfg: Config, s: State, i: nat, network: Network)
    requires |s.phases| == |cfg.ids| && Obtains(cfg, s, i, network)
    ensures var s' := Apply(cfg, s, Decide(i, network));
            && |s'.phases| == |cfg.ids| && s'.now == s.now
            && HeldUntil(s'.key, cfg.ids[i], s.now, s.now + Lifetime(cfg, s, i))
  {
  }

  lemma OthersLeaveKey(cfg: Config, s: State, step: Step, id: string, end: int)
    requires |s.phases| == |cfg.ids| && HeldUntil(s.key, id, s.now, end)
    requires step.Decide? && !step.network.RequestLost? && step.i < |cfg.ids| ==> cfg.ids[step.i] != id && s.now < end
    ensures var s' := Apply(cfg, s, step); s.now <= s'.now && HeldUntil(s'.key, id, s'.now, end)
  {
    assert Owner(s.key, s.now) == if s.now < end then Some(id) else None;
  }

  lemma {:induction false} SilenceKeepsKey(cfg: Config, s: State, later: seq<Step>, id: string, end: int)
    requires |s.phases| == |cfg.ids| && HeldUntil(s.key, id, s.now, end) && Silent(cfg, s, later, id, end)
    ensures var s' := Resumed(cfg, s, later); HeldUntil(s'.key, id, s'.now, end)
  {
    if later != [] {
      hide HeldUntil, Apply;
      var n := |later| - 1;
      var init := later[..n];
      assert forall m | 0 <= m < n :: init[..m] == later[..m] && init[m] == later[m];
      SilenceKeepsKey(cfg, s, init, id, end);
      OthersLeaveKey(cfg, Resumed(cfg, s, init), later[n], id, end);
    }
  }

  /** Whether an idle instance is granted a pass when its read and its write are answered. */
  predicate GrantedNext(cfg: Config, s: State, j: nat)
    requires |s.phases| == |cfg.ids|
  {
    j < |cfg.ids| && Apply(cfg, Apply(cfg, s, Tick(j, Answered)), Decide(j, Answered)).phases[j] == Granted(s.now)
  }

  lemma OtherIsGranted(cfg: Config, s: State, j: nat)
    requires |s.phases| == |cfg.ids| && j < |cfg.ids| && s.phases[j].Idle?
    ensures GrantedNext(cfg, s, j) <==> Owner(s.key, s.now).None? || Owner(s.key, s.now) == Some(cfg.ids[j])
  {
  }

  /**
   After the owner's last command, and as long as nobody else has taken the lease over,
   another idle instance is granted a pass exactly from the end of the lease on.
   */
  lemma FailoverIff(cfg: Config, steps: seq<Step>, i: nat, network: Network, later: seq<Step>, j: nat)
    requires Obtains(cfg, After(cfg, steps), i, network)
    requires j < |cfg.ids| && cfg.ids[j] != cfg.ids[i]
    requires var s := After(cfg, steps);
             Silent(cfg, Apply(cfg, s, Decide(i, network)), later, cfg.ids[i], s.now + Lifetime(cfg, s, i))
    requires Resumed(cfg, Apply(cfg, After(cfg, steps), Decide(i, network)), later).phases[j].Idle?
    ensures var s := After(cfg, steps);
            var s' := Resumed(cfg, Apply(cfg, s, Decide(i, network)), later);
            GrantedNext(cfg, s', j) <==> s'.now >= s.now + Lifetime(cfg, s, i)
  {
    hide After, Apply, Resumed, GrantedNext;
    var s := After(cfg, steps);
    var s0, end := Apply(cfg, s, Decide(i, network)), s.now + Lifetime(cfg, s, i);
    ObtainedKey(cfg, s, i, network);
    SilenceKeepsKey(cfg, s0, later, cfg.ids[i], end);
    var s' := Resumed(cfg, s0, later);
    assert Owner(s'.key, s'.now) == if s'.now < end then Some(cfg.ids[i]) else None;
    OtherIsGranted(cfg, s', j);
  }

  // ------------------------------------------------------------------
  // The hypotheses are needed

  lemma AfterOneMore(cfg: Config, steps: seq<Step>, step: Step)
    ensures After(cfg, steps + [step]) == Apply(cfg, After(cfg, steps), step)
  {
    assert (steps + [step])[..|steps|] == steps;
  }

  /** The state of `s` once instance `i`, idle and entitled to the lease, has been granted a pass. */
  function Entered(cfg: Config, s: State, i: nat): State
    requires i < |cfg.ids| == |s.phases|
  {
    State(s.now,
          if Owner(s.key, s.now).None? then Claimed(s.key, cfg.ids[i], cfg.ttl, s.now)
          else Renewed(s.key, cfg.ids[i], cfg.ttl, s.now),
          s.phases[i := Granted(s.now)])
  }

  predicate MayEnter(cfg: Config, s: State, i: nat) {
    && i < |cfg.ids| == |s.phases|
    && s.phases[i] == Idle
    && (Owner(s.key, s.now).None? || Owner(s.key, s.now) == Some(cfg.ids[i]))
  }

  lemma TickThenDecide(cfg: Config, s: State, i: nat)
    requires MayEnter(cfg, s, i)
    ensures Apply(cfg, Apply(cfg, s, Tick(i, Answered)), Decide(i, Answered)) == Entered(cfg, s, i)
  {
    var s1 := Apply(cfg, s, Tick(i, Answered));
    assert s1.phases[i := Granted(s.now)] == s.phases[i := Granted(s.now)];
  }

  lemma Enter(cfg: Config, steps: seq<Step>, i: nat) returns (steps': seq<Step>)
    requires MayEnter(cfg, After(cfg, steps), i)
    ensures After(cfg, steps') == Entered(cfg, After(cfg, steps), i)
  {
    TickThenDecide(cfg, After(cfg, steps), i);
    AfterOneMore(cfg, steps, Tick(i, Answered));
    AfterOneMore(cfg, steps + [Tick(i, Answered)], Decide(i, Answered));
    steps' := steps + [Tick(i, Answered)] + [Decide(i, Answered)];
  }

  /** Two instances that share an id both pass the owner check. */
  lemma SharedIdOverlap(cfg: Config, i: nat, j: nat)
    requires i < j < |cfg.ids| && cfg.ids[i] == cfg.ids[j] && cfg.ttl > 0
    ensures !Exclusive(cfg)
  {
    var steps := Enter(cfg, [], i);
    AfterOneMore(cfg, steps, Start(i));
    steps := Enter(cfg, steps + [Start(i)], j);
    AfterOneMore(cfg, steps, Start(j));
    steps := steps + [Start(j)];
    var s := After(cfg, steps);
    assert s.phases[i].Working? && s.phases[j].Working?;
    assert TwoWorking(s);
  }

  /** Instance 0 claims, finishes, renews at time 0 and starts as late as its reply allows. */
  lemma LateStart(cfg: Config) returns (steps: seq<Step>)
    requires |cfg.ids| >= 2 && cfg.ttl > 0
    ensures var s := After(cfg, steps);
            && s.now == cfg.delay
            && s.key == Renewed(Held(cfg.ids[0], cfg.ttl), cfg.ids[0], cfg.ttl, 0)
            && s.phases == Initial(cfg).phases[0 := Working(0, cfg.delay)]
  {
    steps := Enter(cfg, [], 0);
    AfterOneMore(cfg, steps, Stop(0));
    steps := Enter(cfg, steps + [Stop(0)], 0);
    AfterOneMore(cfg, steps, Advance(cfg.delay));
    steps := steps + [Advance(cfg.delay)];
    AfterOneMore(cfg, steps, Start(0));
    steps := steps + [Start(0)];
    assert After(cfg, steps).phases == Initial(cfg).phases[0 := Working(0, cfg.delay)];
  }

  /** A renewed lease that lapses during the pass is claimed by somebody else. */
  lemma LapsedLeaseOverlap(cfg: Config)
    requires |cfg.ids| >= 2 && cfg.ttl > 0 && !LeaseOutlivesPass(cfg)
    ensures !Exclusive(cfg)
  {
    var steps := LateStart(cfg);
    var lifetime := RenewedLifetime(cfg.ttl);
    var lapse := if lifetime < cfg.delay then cfg.delay else lifetime;
    AfterOneMore(cfg, steps, Advance(lapse));
    steps := Enter(cfg, steps + [Advance(lapse)], 1);
    AfterOneMore(cfg, steps, Start(1));
    steps := steps + [Start(1)];
    var s := After(cfg, steps);
    assert s.phases[0].Working? && s.phases[1].Working?;
    assert TwoWorking(s);
  }

  /**
   Exactly when the lease excludes: the ids differ and the response delay plus the
   pass limit stays below the renewed lifetime, which is the TTL truncated to seconds.
   */
  lemma ExclusiveIff(cfg: Config)
    requires |cfg.ids| >= 2 && cfg.ttl > 0
    ensures Exclusive(cfg) <==> Distinct(cfg.ids) && LeaseOutlivesPass(cfg)
  {
    if Distinct(cfg.ids) && LeaseOutlivesPass(cfg) {
      forall steps
        ensures !TwoWorking(After(cfg, steps))
      {
        MutualExclusion(cfg, steps);
      }
    } else if !Distinct(cfg.ids) {
      var i, j :| 0 <= i < j < |cfg.ids| && cfg.ids[i] == cfg.ids[j];
      SharedIdOverlap(cfg, i, j);
    } else {
      LapsedLeaseOverlap(cfg);
    }
  }

  /** With the deployed two-minute lease, any delay below ninety seconds is safe and no other. */
  lemma DeployedLease(cfg: Config)
    requires |cfg.ids| >= 2 && Distinct(cfg.ids) && cfg.ttl == DEPLOYED_TTL
    ensures Exclusive(cfg) <==> cfg.delay < 90_000
  {
    ExclusiveIff(cfg);
  }
}
