/** Per-IP failure counting with lockout, in a table bounded by recency of use. */
module AuthLockout {

  datatype IpState = IpState(failures: int, lockedUntil: real)

  const FRESH := IpState(0, 0.0)

  datatype Config = Config(lockoutMax: int, lockoutSecs: real, stateMax: int)

  /** Python's OrderedDict of the tracked addresses. */
  datatype OrderedDict = OrderedDict(order: seq<string>, entries: map<string, IpState>)

  const EMPTY := OrderedDict([], map[])

  ghost predicate NoDuplicates(q: seq<string>) {
    forall i, j :: 0 <= i < j < |q| ==> q[i] != q[j]
  }

  ghost predicate Consistent(d: OrderedDict) {
    && NoDuplicates(d.order)
    && forall ip :: ip in d.order <==> ip in d.entries
  }

  function Without(q: seq<string>, x: string): seq<string> {
    if q == [] then []
    else if q[0] == x then Without(q[1..], x)
    else [q[0]] + Without(q[1..], x)
  }

  /** setdefault(ip, fresh) and move_to_end(ip). */
  function Touched(d: OrderedDict, ip: string): OrderedDict {
    OrderedDict(Without(d.order, ip) + [ip], if ip in d.entries then d.entries else d.entries[ip := FRESH])
  }

  /** popitem(last=False) when there are more than `stateMax` entries. */
  function Trimmed(d: OrderedDict, stateMax: int): OrderedDict {
    if |d.order| > stateMax && d.order != [] then OrderedDict(d.order[1..], d.entries - {d.order[0]}) else d
  }

  /** One verification: the caller's address, whether its credentials are right, and the two clock readings. */
  datatype Call = Call(ip: string, credentialsOk: bool, now: real, later: real)

  datatype Outcome = Locked | Required | Accepted

  function Failed(cfg: Config, st: IpState, later: real): IpState {
    var n := st.failures + 1;
    IpState(n, if n >= cfg.lockoutMax then later + cfg.lockoutSecs else st.lockedUntil)
  }

  /** Counting a failure of `ip`, which may have been dropped from the table in the meantime. */
  function FailureRecorded(cfg: Config, d: OrderedDict, ip: string, later: real): OrderedDict {
    var t := Touched(d, ip);
    Trimmed(t.(entries := t.entries[ip := Failed(cfg, t.entries[ip], later)]), cfg.stateMax)
  }

  function OutcomeOf(d: OrderedDict, c: Call): Outcome {
    if Touched(d, c.ip).entries[c.ip].lockedUntil > c.now then Locked
    else if c.credentialsOk then Accepted
    else Required
  }

  function Step(cfg: Config, d: OrderedDict, c: Call): OrderedDict {
    var t := Touched(d, c.ip);
    match OutcomeOf(d, c)
    case Locked => t
    case Required => Trimmed(t.(entries := t.entries[c.ip := Failed(cfg, t.entries[c.ip], c.later)]), cfg.stateMax)
    case Accepted => Trimmed(t.(entries := t.entries[c.ip := FRESH]), cfg.stateMax)
  }

  lemma {:induction false} WithoutHas(q: seq<string>, x: string)
    ensures forall y :: y in Without(q, x) <==> y in q && y != x
  {
    if q != [] {
      WithoutHas(q[1..], x);
      assert q == [q[0]] + q[1..];
    }
  }

  lemma {:induction false} WithoutDistinct(q: seq<string>, x: string)
    requires NoDuplicates(q)
    ensures NoDuplicates(Without(q, x))
    ensures |Without(q, x)| == if x in q then |q| - 1 else |q|
    ensures x !in q ==> Without(q, x) == q
  {
    if q != [] {
      var rest := Without(q[1..], x);
      WithoutDistinct(q[1..], x);
      WithoutHas(q[1..], x);
      assert q == [q[0]] + q[1..];
      assert forall i :: 0 <= i < |rest| ==> rest[i] in rest;
    }
  }

  lemma TouchedConsistent(d: OrderedDict, ip: string)
    requires Consistent(d)
    ensures Consistent(Touched(d, ip))
  {
    WithoutHas(d.order, ip);
    WithoutDistinct(d.order, ip);
    var q := Without(d.order, ip);
    assert forall i :: 0 <= i < |q| ==> q[i] in q;
    assert forall y :: y in q + [ip] <==> y in q || y == ip;
  }

  lemma TrimmedConsistent(d: OrderedDict, stateMax: int)
    requires Consistent(d)
    ensures Consistent(Trimmed(d, stateMax))
  {
    if |d.order| > stateMax && d.order != [] {
      assert d.order == [d.order[0]] + d.order[1..];
      assert forall i :: 0 <= i < |d.order[1..]| ==> d.order[1..][i] == d.order[i + 1];
    }
  }

  lemma StepConsistent(cfg: Config, d: OrderedDict, c: Call)
    requires Consistent(d)
    ensures Consistent(Step(cfg, d, c))
  {
    TouchedConsistent(d, c.ip);
    var t := Touched(d, c.ip);
    TrimmedConsistent(t.(entries := t.entries[c.ip := Failed(cfg, t.entries[c.ip], c.later)]), cfg.stateMax);
    TrimmedConsistent(t.(entries := t.entries[c.ip := FRESH]), cfg.stateMax);
  }

  class AuthVerifier {
    const username: string
    const cfg: Config
    var state: OrderedDict

    ghost predicate Valid()
      reads this
    {
      Consistent(state)
    }

    constructor (username: string, cfg: Config)
      ensures Valid() && this.cfg == cfg && state == EMPTY
    {
      this.username, this.cfg, state := username, cfg, EMPTY;
    }

    method Verify(c: Call) returns (outcome: Outcome)
      requires Valid()
      modifies this
      ensures Valid()
      ensures outcome == OutcomeOf(old(state), c) && state == Step(cfg, old(state), c)
    {
      StepConsistent(cfg, state, c);
      TouchedConsistent(state, c.ip);
      state := Touched(state, c.ip);
      if state.entries[c.ip].lockedUntil > c.now {
        return Locked;
      }
      if !c.credentialsOk {
        TouchedLast(state, c.ip);
        RecordFailure(c.ip, c.later);
        return Required;
      }
      state := state.(entries := state.entries[c.ip := FRESH]);
      TouchedLast(state, c.ip);
      state := Touched(state, c.ip);
      if |state.order| > cfg.stateMax {
        state := Trimmed(state, cfg.stateMax);
      }
      return Accepted;
    }

    method RecordFailure(ip: string, later: real)
      requires Valid()
      modifies this
      ensures Valid() && state == FailureRecorded(cfg, old(state), ip, later)
    {
      TouchedConsistent(state, ip);
      state := Touched(state, ip);
      var st := state.entries[ip];
      st := st.(failures := st.failures + 1);
      if st.failures >= cfg.lockoutMax {
        st := st.(lockedUntil := later + cfg.lockoutSecs);
      }
      assert st == Failed(cfg, state.entries[ip], later);
      state := state.(entries := state.entries[ip := st]);
      TrimmedConsistent(state, cfg.stateMax);
      if |state.order| > cfg.stateMax {
        state := Trimmed(state, cfg.stateMax);
      }
    }
  }

  lemma {:induction false} WithoutLast(q: seq<string>, x: string)
    requires NoDuplicates(q) && q != [] && q[|q| - 1] == x
    ensures Without(q, x) + [x] == q
  {
    if |q| > 1 {
      WithoutLast(q[1..], x);
    }
  }

  lemma TouchedLast(d: OrderedDict, ip: string)
    requires NoDuplicates(d.order) && d.order != [] && d.order[|d.order| - 1] == ip && ip in d.entries
    ensures Touched(d, ip) == d
  {
    WithoutLast(d.order, ip);
  }

  // --- recency ---

  function Run(cfg: Config, d: OrderedDict, calls: seq<Call>): OrderedDict {
    if calls == [] then d else Step(cfg, Run(cfg, d, calls[..|calls| - 1]), calls[|calls| - 1])
  }

  /** The distinct callers, in order of their latest call. */
  function Recent(calls: seq<Call>): seq<string> {
    if calls == [] then []
    else
      var ip := calls[|calls| - 1].ip;
      Without(Recent(calls[..|calls| - 1]), ip) + [ip]
  }

  predicate CalledAt(calls: seq<Call>, ip: string, n: nat) {
    n < |calls| && calls[n].ip == ip && forall m :: n < m < |calls| ==> calls[m].ip != ip
  }

  /** `Recent` lists every caller once, by the position of its latest call. */
  lemma {:induction false} RecentIs(calls: seq<Call>)
    ensures NoDuplicates(Recent(calls))
    ensures forall ip :: ip in Recent(calls) <==> exists c :: c in calls && c.ip == ip
    ensures forall i, j, m, n ::
              (0 <= i < j < |Recent(calls)| && CalledAt(calls, Recent(calls)[i], m) &&
                CalledAt(calls, Recent(calls)[j], n))
              ==> m < n
  {
    if calls != [] {
      var front, last := calls[..|calls| - 1], calls[|calls| - 1];
      RecentIs(front);
      WithoutHas(Recent(front), last.ip);
      WithoutDistinct(Recent(front), last.ip);
      assert calls == front + [last];
      forall i, j, m, n | 0 <= i < j < |Recent(calls)| && CalledAt(calls, Recent(calls)[i], m) &&
        CalledAt(calls, Recent(calls)[j], n)
        ensures m < n
      {
        if j < |Recent(calls)| - 1 {
          var rest := Without(Recent(front), last.ip);
          assert rest[i] in rest && rest[j] in rest;
          assert CalledAt(front, rest[i], m) && CalledAt(front, rest[j], n);
          WithoutKeepsOrder(Recent(front), last.ip, i, j);
        }
      }
    }
  }

  lemma {:induction false} WithoutKeepsOrder(q: seq<string>, x: string, i: nat, j: nat)
    requires i < j < |Without(q, x)|
    ensures exists k, l :: 0 <= k < l < |q| && q[k] == Without(q, x)[i] && q[l] == Without(q, x)[j]
  {
    if q[0] == x {
      WithoutKeepsOrder(q[1..], x, i, j);
      var k, l :| 0 <= k < l < |q[1..]| && q[1..][k] == Without(q, x)[i] && q[1..][l] == Without(q, x)[j];
      assert q[k + 1] == Without(q, x)[i] && q[l + 1] == Without(q, x)[j];
    } else if i > 0 {
      WithoutKeepsOrder(q[1..], x, i - 1, j - 1);
      var k, l :| 0 <= k < l < |q[1..]| && q[1..][k] == Without(q, x)[i] && q[1..][l] == Without(q, x)[j];
      assert q[k + 1] == Without(q, x)[i] && q[l + 1] == Without(q, x)[j];
    } else {
      WithoutHas(q[1..], x);
      assert Without(q, x)[j] == Without(q[1..], x)[j - 1];
      assert Without(q, x)[j] in q[1..];
      var l :| 0 <= l < |q[1..]| && q[1..][l] == Without(q, x)[j];
      assert q[0] == Without(q, x)[i] && q[l + 1] == Without(q, x)[j];
    }
  }

  function LastN(q: seq<string>, n: nat): seq<string> {
    if |q| <= n then q else q[|q| - n..]
  }

  lemma WithoutFirstOf(q: seq<string>, x: string)
    requires q != []
    ensures Without(q, x) == (if q[0] == x then [] else [q[0]]) + Without(q[1..], x)
  {
  }

  lemma {:induction false} WithoutAppend(a: seq<string>, b: seq<string>, x: string)
    ensures Without(a + b, x) == Without(a, x) + Without(b, x)
  {
    if a == [] {
      assert a + b == b;
    } else {
      WithoutAppend(a[1..], b, x);
      assert (a + b)[1..] == a[1..] + b;
      WithoutFirstOf(a + b, x);
      WithoutFirstOf(a, x);
    }
  }

  lemma LastNOfTail(a: seq<string>, b: seq<string>, n: nat)
    requires |b| >= n
    ensures LastN(a + b, n) == LastN(b, n)
  {
  }

  /** Re-appending a caller commutes with keeping the last `n`. */
  lemma LastNOfLastN(q: seq<string>, x: string, n: nat)
    requires NoDuplicates(q) && n >= 1
    ensures LastN(Without(LastN(q, n), x) + [x], n) == LastN(Without(q, x) + [x], n)
  {
    if |q| > n {
      var gone, kept := q[..|q| - n], q[|q| - n..];
      assert q == gone + kept;
      WithoutAppend(gone, kept, x);
      WithoutDistinct(kept, x);
      LastNOfTail(Without(gone, x), Without(kept, x) + [x], n);
      assert Without(q, x) + [x] == Without(gone, x) + (Without(kept, x) + [x]);
    }
  }

  ghost predicate Clocked(calls: seq<Call>) {
    forall i :: 0 <= i < |calls| ==> 0.0 <= calls[i].now <= calls[i].later
  }

  /** Every entry of a locked address was made by an earlier call, so a locked call never grows the table. */
  lemma StepOrder(cfg: Config, d: OrderedDict, c: Call)
    requires Consistent(d) && 0.0 <= c.now && cfg.stateMax >= 1 && |d.order| <= cfg.stateMax
    ensures Step(cfg, d, c).order == LastN(Without(d.order, c.ip) + [c.ip], cfg.stateMax)
  {
    WithoutDistinct(d.order, c.ip);
  }

  /** The table holds exactly the last `stateMax` distinct callers, by latest call, whatever the calls' outcomes. */
  lemma {:induction false} TableIsMostRecent(cfg: Config, calls: seq<Call>)
    requires Clocked(calls) && cfg.stateMax >= 1
    ensures Consistent(Run(cfg, EMPTY, calls))
    ensures Run(cfg, EMPTY, calls).order == LastN(Recent(calls), cfg.stateMax)
  {
    if calls != [] {
      var front, last := calls[..|calls| - 1], calls[|calls| - 1];
      TableIsMostRecent(cfg, front);
      var d := Run(cfg, EMPTY, front);
      StepConsistent(cfg, d, last);
      StepOrder(cfg, d, last);
      RecentIs(front);
      LastNOfLastN(Recent(front), last.ip, cfg.stateMax);
    }
  }

  // --- lockout ---

  /** The times at which failures of `ip` were recorded along a run. */
  function Failures(cfg: Config, d: OrderedDict, calls: seq<Call>, ip: string): seq<real> {
    if calls == [] then []
    else
      var front, last := calls[..|calls| - 1], calls[|calls| - 1];
      Failures(cfg, d, front, ip) +
      if last.ip == ip && OutcomeOf(Run(cfg, d, front), last) == Required then [last.later] else []
  }

  /** Along the run `ip` is never let in and never dropped from the table once it is there. */
  ghost predicate HeldOut(cfg: Config, d: OrderedDict, calls: seq<Call>, ip: string) {
    calls != [] ==>
      var front, last := calls[..|calls| - 1], calls[|calls| - 1];
      var before, after := Run(cfg, d, front), Run(cfg, d, calls);
      && HeldOut(cfg, d, front, ip)
      && (last.ip == ip ==> OutcomeOf(before, last) != Accepted && ip in after.entries)
      && (ip in before.entries ==> ip in after.entries)
  }

  /** One call after another on a clock that does not run backwards. */
  ghost predicate Sequential(calls: seq<Call>) {
    && (forall i :: 0 <= i < |calls| ==> calls[i].now <= calls[i].later)
    && (forall i, j :: 0 <= i < j < |calls| ==> calls[i].later <= calls[j].now)
  }

  /** The failure from which on every recorded failure locks, counted from zero. */
  function FirstLocking(cfg: Config): nat {
    if cfg.lockoutMax <= 1 then 0 else cfg.lockoutMax - 1
  }

  /** A counter that has seen the failures `f`. */
  ghost predicate Counts(cfg: Config, st: IpState, f: seq<real>) {
    && st.failures == |f|
    && (st.lockedUntil == if |f| > FirstLocking(cfg) then f[|f| - 1] + cfg.lockoutSecs else 0.0)
  }

  ghost predicate SpacedOut(cfg: Config, f: seq<real>) {
    && (forall i, j :: 0 <= i < j < |f| ==> f[i] <= f[j])
    && (forall i, j :: FirstLocking(cfg) <= i < j < |f| && j == i + 1 ==> f[j] - f[i] >= cfg.lockoutSecs)
  }

  lemma TouchedKeeps(d: OrderedDict, ip: string, other: string)
    ensures other in Touched(d, ip).entries <==> other in d.entries || other == ip
    ensures other in d.entries ==> Touched(d, ip).entries[other] == d.entries[other]
    ensures ip !in d.entries ==> Touched(d, ip).entries[ip] == FRESH
  {
  }

  /** What one call does to the entry of `ip`, as long as it neither lets it in nor drops it. */
  lemma StepEntry(cfg: Config, d: OrderedDict, c: Call, ip: string)
    requires ip in Step(cfg, d, c).entries && !(c.ip == ip && OutcomeOf(d, c) == Accepted)
    ensures c.ip != ip ==> ip in d.entries
    ensures var st := if ip in d.entries then d.entries[ip] else FRESH;
            Step(cfg, d, c).entries[ip] ==
              if c.ip == ip && OutcomeOf(d, c) == Required then Failed(cfg, st, c.later) else st
    ensures var st := if ip in d.entries then d.entries[ip] else FRESH;
            c.ip == ip && OutcomeOf(d, c) == Required ==> st.lockedUntil <= c.now
  {
    TouchedKeeps(d, c.ip, ip);
  }

  /** Where a held-out address stands: its failures are spaced out, and its counter has seen them all. */
  ghost predicate Tracked(cfg: Config, d: OrderedDict, f: seq<real>, ip: string) {
    SpacedOut(cfg, f) && if ip in d.entries then Counts(cfg, d.entries[ip], f) else f == []
  }

  lemma StepTracked(cfg: Config, d: OrderedDict, c: Call, f: seq<real>, ip: string)
    requires Tracked(cfg, d, f, ip) && c.now <= c.later && (f != [] ==> f[|f| - 1] <= c.now)
    requires c.ip == ip ==> OutcomeOf(d, c) != Accepted && ip in Step(cfg, d, c).entries
    requires ip in d.entries ==> ip in Step(cfg, d, c).entries
    ensures Tracked(cfg, Step(cfg, d, c), f + if c.ip == ip && OutcomeOf(d, c) == Required then [c.later] else [], ip)
  {
    if ip in Step(cfg, d, c).entries {
      StepEntry(cfg, d, c, ip);
      if c.ip == ip && OutcomeOf(d, c) == Required {
        FailureCounted(cfg, if ip in d.entries then d.entries[ip] else FRESH, f, c);
      } else {
        assert f + [] == f;
      }
    } else {
      assert f + [] == f;
    }
  }

  lemma {:induction false} FailuresDated(cfg: Config, d: OrderedDict, calls: seq<Call>, ip: string)
    requires Sequential(calls)
    ensures var f := Failures(cfg, d, calls, ip); f != [] ==> calls != [] && f[|f| - 1] <= calls[|calls| - 1].later
  {
    if calls != [] {
      FailuresDated(cfg, d, calls[..|calls| - 1], ip);
      if |calls| > 1 {
        assert calls[|calls| - 2].later <= calls[|calls| - 1].now;
      }
    }
  }

  /** The counter of a held-out address counts its failures, and a failure that locks delays the next one. */
  lemma {:induction false} LockoutSpacing(cfg: Config, d: OrderedDict, calls: seq<Call>, ip: string)
    requires Sequential(calls) && HeldOut(cfg, d, calls, ip)
    requires ip in d.entries ==> d.entries[ip] == FRESH
    ensures Tracked(cfg, Run(cfg, d, calls), Failures(cfg, d, calls, ip), ip)
  {
    if calls != [] {
      var front, last := calls[..|calls| - 1], calls[|calls| - 1];
      LockoutSpacing(cfg, d, front, ip);
      FailuresDated(cfg, d, front, ip);
      if front != [] {
        assert calls[|calls| - 2].later <= last.now;
      }
      StepTracked(cfg, Run(cfg, d, front), last, Failures(cfg, d, front, ip), ip);
    }
  }

  lemma FailureCounted(cfg: Config, st: IpState, f: seq<real>, c: Call)
    requires Counts(cfg, st, f) && SpacedOut(cfg, f) && st.lockedUntil <= c.now <= c.later &&
             (f != [] ==> f[|f| - 1] <= c.now)
    ensures Counts(cfg, Failed(cfg, st, c.later), f + [c.later]) && SpacedOut(cfg, f + [c.later])
  {
  }

  /** A held-out address is turned away unseen exactly while its latest failure, if that one locks, is recent. */
  lemma LockedIff(cfg: Config, d: OrderedDict, calls: seq<Call>, c: Call)
    requires Sequential(calls) && HeldOut(cfg, d, calls, c.ip) && c.now >= 0.0
    requires c.ip in d.entries ==> d.entries[c.ip] == FRESH
    ensures var f := Failures(cfg, d, calls, c.ip);
            OutcomeOf(Run(cfg, d, calls), c) == Locked <==>
              |f| > FirstLocking(cfg) && c.now < f[|f| - 1] + cfg.lockoutSecs
  {
    LockoutSpacing(cfg, d, calls, c.ip);
    LockedByCounter(cfg, Run(cfg, d, calls), Failures(cfg, d, calls, c.ip), c);
  }

  lemma LockedByCounter(cfg: Config, d: OrderedDict, f: seq<real>, c: Call)
    requires Tracked(cfg, d, f, c.ip) && c.now >= 0.0
    ensures OutcomeOf(d, c) == Locked <==> |f| > FirstLocking(cfg) && c.now < f[|f| - 1] + cfg.lockoutSecs
  {
    TouchedKeeps(d, c.ip, c.ip);
  }

  /** A success forgets everything before it: only the failures after it can lock. */
  lemma SuccessForgets(cfg: Config, d: OrderedDict, success: Call, calls: seq<Call>, c: Call)
    requires Consistent(d) && OutcomeOf(d, success) == Accepted && c.ip == success.ip && c.now >= 0.0
    requires Sequential(calls) && HeldOut(cfg, Step(cfg, d, success), calls, c.ip)
    ensures var after := Step(cfg, d, success);
            var f := Failures(cfg, after, calls, c.ip);
            OutcomeOf(Run(cfg, after, calls), c) == Locked <==>
              |f| > FirstLocking(cfg) && c.now < f[|f| - 1] + cfg.lockoutSecs
  {
    LockedIff(cfg, Step(cfg, d, success), calls, c);
  }

  lemma {:induction false} SpacedFrom(cfg: Config, f: seq<real>, k: nat)
    requires SpacedOut(cfg, f) && FirstLocking(cfg) <= k < |f|
    ensures f[k] - f[FirstLocking(cfg)] >= (k - FirstLocking(cfg)) as real * cfg.lockoutSecs
  {
    if k > FirstLocking(cfg) {
      SpacedFrom(cfg, f, k - 1);
      assert f[k] - f[k - 1] >= cfg.lockoutSecs;
    }
  }

  /**
   * Within `period` of its first recorded failure, an address that is neither let in nor dropped has at most
   * `lockoutMax` failures recorded, plus one for each whole lockout that fits.
   */
  lemma LockoutRateBound(cfg: Config, d: OrderedDict, calls: seq<Call>, ip: string, period: real, k: nat)
    requires Sequential(calls) && HeldOut(cfg, d, calls, ip) && cfg.lockoutSecs > 0.0 && period >= 0.0
    requires ip in d.entries ==> d.entries[ip] == FRESH
    requires k < |Failures(cfg, d, calls, ip)| &&
             Failures(cfg, d, calls, ip)[k] - Failures(cfg, d, calls, ip)[0] <= period
    ensures k + 1 <= FirstLocking(cfg) + 1 + (period / cfg.lockoutSecs).Floor
  {
    LockoutSpacing(cfg, d, calls, ip);
    CountWithin(cfg, Failures(cfg, d, calls, ip), k, period);
  }

  lemma CountWithin(cfg: Config, f: seq<real>, k: nat, period: real)
    requires SpacedOut(cfg, f) && cfg.lockoutSecs > 0.0 && period >= 0.0
    requires k < |f| && f[k] - f[0] <= period
    ensures k <= FirstLocking(cfg) + (period / cfg.lockoutSecs).Floor
  {
    var m := FirstLocking(cfg);
    if k <= m {
      WholeLockouts(0, cfg.lockoutSecs, period);
    } else {
      SpacedFrom(cfg, f, k);
      assert f[0] <= f[m];
      WholeLockouts(k - m, cfg.lockoutSecs, period);
    }
  }

  lemma WholeLockouts(n: nat, secs: real, period: real)
    requires secs > 0.0 && n as real * secs <= period
    ensures n <= (period / secs).Floor
  {
    assert (period / secs) * secs == period;
    assert n as real <= period / secs;
  }

  // --- who is remembered, read off the calls ---

  predicate Called(calls: seq<Call>, ip: string) {
    exists i :: 0 <= i < |calls| && calls[i].ip == ip
  }

  /** The other callers since the latest call of `ip`. */
  function OthersSince(calls: seq<Call>, ip: string): set<string> {
    if calls == [] || calls[|calls| - 1].ip == ip then {}
    else OthersSince(calls[..|calls| - 1], ip) + {calls[|calls| - 1].ip}
  }

  lemma CalledNext(calls: seq<Call>, ip: string)
    requires calls != []
    ensures Called(calls, ip) <==> calls[|calls| - 1].ip == ip || Called(calls[..|calls| - 1], ip)
  {
    var front := calls[..|calls| - 1];
    assert forall i :: 0 <= i < |front| ==> front[i] == calls[i];
  }

  lemma {:induction false} DistinctCount(q: seq<string>, s: set<string>)
    requires NoDuplicates(q) && forall y :: y in q <==> y in s
    ensures |q| == |s|
  {
    if q == [] {
      assert s == {};
    } else {
      assert q == [q[0]] + q[1..];
      DistinctCount(q[1..], s - {q[0]});
    }
  }

  /** In the recency list a caller is followed by exactly the others since its latest call. */
  lemma {:induction false} RecentSplit(calls: seq<Call>, ip: string) returns (a: seq<string>, b: seq<string>)
    requires Called(calls, ip)
    ensures Recent(calls) == a + [ip] + b && forall y :: y in b <==> y in OthersSince(calls, ip)
  {
    var front, x := calls[..|calls| - 1], calls[|calls| - 1].ip;
    CalledNext(calls, ip);
    if x == ip {
      a, b := Without(Recent(front), x), [];
      assert a + [ip] + b == a + [ip];
    } else {
      var a', b' := RecentSplit(front, ip);
      WithoutAppend(a' + [ip], b', x);
      WithoutAppend(a', [ip], x);
      WithoutHas(b', x);
      a, b := Without(a', x), Without(b', x) + [x];
      assert Without([ip], x) == [ip];
      assert Recent(calls) == a + [ip] + Without(b', x) + [x] == a + [ip] + b;
    }
  }

  lemma InLastN(a: seq<string>, ip: string, b: seq<string>, n: nat)
    requires NoDuplicates(a + [ip] + b)
    ensures ip in LastN(a + [ip] + b, n) <==> |b| < n
  {
    var q := a + [ip] + b;
    assert q[|a|] == ip && q[|a| + 1..] == b;
    var kept := LastN(q, n);
    if |b| < n {
      assert kept[|kept| - 1 - |b|] == ip;
    } else {
      assert forall i :: 0 <= i < |kept| ==> kept[i] == q[|q| - |kept| + i];
    }
  }

  lemma OthersCounted(calls: seq<Call>, ip: string, n: nat)
    requires Called(calls, ip)
    ensures ip in LastN(Recent(calls), n) <==> |OthersSince(calls, ip)| < n
  {
    var q := Recent(calls);
    var a, b := RecentSplit(calls, ip);
    RecentIs(calls);
    InLastN(a, ip, b, n);
    assert forall i :: 0 <= i < |b| ==> b[i] == q[|a| + 1 + i];
    DistinctCount(b, OthersSince(calls, ip));
  }

  /** An address is in the table if and only if it has called and fewer than `stateMax` others have since. */
  lemma RememberedIff(cfg: Config, calls: seq<Call>, ip: string)
    requires Clocked(calls) && cfg.stateMax >= 1
    ensures ip in Run(cfg, EMPTY, calls).entries <==> Called(calls, ip) && |OthersSince(calls, ip)| < cfg.stateMax
  {
    TableIsMostRecent(cfg, calls);
    if Called(calls, ip) {
      OthersCounted(calls, ip, cfg.stateMax);
    } else {
      RecentIs(calls);
      assert forall y :: y in LastN(Recent(calls), cfg.stateMax) ==> y in Recent(calls);
    }
  }

  /**
   * Once `stateMax` others have called since, an address starts afresh: it is not refused, however recently it was
   * locked.
   */
  lemma ForgottenIsNotLocked(cfg: Config, calls: seq<Call>, c: Call)
    requires Clocked(calls) && cfg.stateMax >= 1 && c.now >= 0.0
    requires |OthersSince(calls, c.ip)| >= cfg.stateMax
    ensures OutcomeOf(Run(cfg, EMPTY, calls), c) == if c.credentialsOk then Accepted else Required
  {
    RememberedIff(cfg, calls, c.ip);
    TouchedKeeps(Run(cfg, EMPTY, calls), c.ip, c.ip);
  }

  ghost predicate NeverLetIn(cfg: Config, calls: seq<Call>, ip: string) {
    calls != [] ==>
      var front, last := calls[..|calls| - 1], calls[|calls| - 1];
      NeverLetIn(cfg, front, ip) && !(last.ip == ip && OutcomeOf(Run(cfg, EMPTY, front), last) == Accepted)
  }

  /** From its first call on, `ip` is at no time followed by `n` or more other callers. */
  ghost predicate KeepsCalling(calls: seq<Call>, ip: string, n: int) {
    calls != [] ==>
      KeepsCalling(calls[..|calls| - 1], ip, n) && (Called(calls, ip) ==> |OthersSince(calls, ip)| < n)
  }

  /** From an empty table an address is held out if and only if it is never let in and calls often enough. */
  lemma {:induction false} HeldOutIff(cfg: Config, calls: seq<Call>, ip: string)
    requires Clocked(calls) && cfg.stateMax >= 1
    ensures HeldOut(cfg, EMPTY, calls, ip) <==> NeverLetIn(cfg, calls, ip) && KeepsCalling(calls, ip, cfg.stateMax)
  {
    if calls != [] {
      var front := calls[..|calls| - 1];
      HeldOutIff(cfg, front, ip);
      RememberedIff(cfg, front, ip);
      RememberedIff(cfg, calls, ip);
      CalledNext(calls, ip);
      if front != [] {
        CalledNext(front, ip);
      }
    }
  }

  /** The rate bound with hypotheses on the calls alone, for a run from an empty table. */
  lemma RateBoundFromCalls(cfg: Config, calls: seq<Call>, ip: string, period: real, k: nat)
    requires Clocked(calls) && Sequential(calls) && cfg.stateMax >= 1 && cfg.lockoutSecs > 0.0 && period >= 0.0
    requires NeverLetIn(cfg, calls, ip) && KeepsCalling(calls, ip, cfg.stateMax)
    requires k < |Failures(cfg, EMPTY, calls, ip)| &&
             Failures(cfg, EMPTY, calls, ip)[k] - Failures(cfg, EMPTY, calls, ip)[0] <= period
    ensures k + 1 <= FirstLocking(cfg) + 1 + (period / cfg.lockoutSecs).Floor
  {
    HeldOutIff(cfg, calls, ip);
    LockoutRateBound(cfg, EMPTY, calls, ip, period, k);
  }

  // --- every outcome, read off the calls ---

  /** Enough failures to lock, and the latest of them recent. */
  predicate Refuses(cfg: Config, f: seq<real>, now: real) {
    f != [] && |f| >= cfg.lockoutMax && now < f[|f| - 1] + cfg.lockoutSecs
  }

  /** The failures of `ip` recorded since it was last let in or forgotten; none are recorded while it is refused. */
  function Standing(cfg: Config, calls: seq<Call>, ip: string): seq<real> {
    if calls == [] then []
    else
      var front, last := calls[..|calls| - 1], calls[|calls| - 1];
      if last.ip != ip then Standing(cfg, front, ip)
      else
        var f := if |OthersSince(front, ip)| < cfg.stateMax then Standing(cfg, front, ip) else [];
        if Refuses(cfg, f, last.now) then f
        else if last.credentialsOk then []
        else f + [last.later]
  }

  /** The failures that count against the next call of `ip`. */
  function Remembered(cfg: Config, calls: seq<Call>, ip: string): seq<real> {
    if |OthersSince(calls, ip)| < cfg.stateMax then Standing(cfg, calls, ip) else []
  }

  lemma {:induction false} NoCallsNoFailures(cfg: Config, calls: seq<Call>, ip: string)
    requires !Called(calls, ip)
    ensures Standing(cfg, calls, ip) == []
  {
    if calls != [] {
      CalledNext(calls, ip);
      NoCallsNoFailures(cfg, calls[..|calls| - 1], ip);
    }
  }

  /** The state in which a call of `ip` finds its counter. */
  function Found(d: OrderedDict, ip: string): IpState {
    if ip in d.entries then d.entries[ip] else FRESH
  }

  lemma CounterRefuses(cfg: Config, d: OrderedDict, f: seq<real>, c: Call)
    requires Counts(cfg, Found(d, c.ip), f) && c.now >= 0.0
    ensures OutcomeOf(d, c) ==
            if Refuses(cfg, f, c.now) then Locked else if c.credentialsOk then Accepted else Required
  {
    TouchedKeeps(d, c.ip, c.ip);
  }

  /** The state of `ip` after its own call, as long as it is not dropped at once. */
  lemma OwnEntry(cfg: Config, d: OrderedDict, f: seq<real>, c: Call)
    requires Counts(cfg, Found(d, c.ip), f) && c.now >= 0.0 && c.ip in Step(cfg, d, c).entries
    ensures var f' := if Refuses(cfg, f, c.now) then f else if c.credentialsOk then [] else f + [c.later];
            Counts(cfg, Step(cfg, d, c).entries[c.ip], f')
  {
    CounterRefuses(cfg, d, f, c);
    TouchedKeeps(d, c.ip, c.ip);
  }

  /** Along any run the counter an address finds has seen the failures that are remembered of it. */
  lemma {:induction false} CounterIs(cfg: Config, calls: seq<Call>, ip: string)
    requires Clocked(calls) && cfg.stateMax >= 1
    ensures Counts(cfg, Found(Run(cfg, EMPTY, calls), ip), Remembered(cfg, calls, ip))
  {
    RememberedIff(cfg, calls, ip);
    if calls == [] {
    } else if ip !in Run(cfg, EMPTY, calls).entries {
      if !Called(calls, ip) {
        NoCallsNoFailures(cfg, calls, ip);
      }
    } else {
      var front, last := calls[..|calls| - 1], calls[|calls| - 1];
      CounterIs(cfg, front, ip);
      if last.ip == ip {
        OwnEntry(cfg, Run(cfg, EMPTY, front), Remembered(cfg, front, ip), last);
      } else {
        StepEntry(cfg, Run(cfg, EMPTY, front), last, ip);
        RememberedIff(cfg, front, ip);
      }
    }
  }

  /**
   * The outcome of any call after any run, from the calls alone: refused while enough remembered failures are recent,
     else
   * let in with right credentials and turned away with wrong ones.
   */
  lemma OutcomeIs(cfg: Config, calls: seq<Call>, c: Call)
    requires Clocked(calls) && cfg.stateMax >= 1 && c.now >= 0.0
    ensures OutcomeOf(Run(cfg, EMPTY, calls), c) ==
            if Refuses(cfg, Remembered(cfg, calls, c.ip), c.now) then Locked
            else if c.credentialsOk then Accepted
            else Required
  {
    CounterIs(cfg, calls, c.ip);
    CounterRefuses(cfg, Run(cfg, EMPTY, calls), Remembered(cfg, calls, c.ip), c);
  }

  /**
   * In any table whatever, a caller is let in if and only if its credentials are right and it is not refused as
   * locked.
   */
  lemma AcceptedIff(d: OrderedDict, c: Call)
    ensures OutcomeOf(d, c) == Accepted <==> c.credentialsOk && OutcomeOf(d, c) != Locked
    ensures OutcomeOf(d, c) == Required <==> !c.credentialsOk && OutcomeOf(d, c) != Locked
  {
  }

  ghost predicate NeverRight(calls: seq<Call>, ip: string) {
    forall i :: 0 <= i < |calls| && calls[i].ip == ip ==> !calls[i].credentialsOk
  }

  lemma {:induction false} WrongIsNeverLetIn(cfg: Config, calls: seq<Call>, ip: string)
    requires NeverRight(calls, ip)
    ensures NeverLetIn(cfg, calls, ip)
  {
    if calls != [] {
      var front, last := calls[..|calls| - 1], calls[|calls| - 1];
      WrongIsNeverLetIn(cfg, front, ip);
      AcceptedIff(Run(cfg, EMPTY, front), last);
    }
  }

  /**
   * The rate bound for an address whose credentials are never right and that calls often enough not to be forgotten.
   */
  lemma GuessingRateBound(cfg: Config, calls: seq<Call>, ip: string, period: real, k: nat)
    requires Clocked(calls) && Sequential(calls) && cfg.stateMax >= 1 && cfg.lockoutSecs > 0.0 && period >= 0.0
    requires NeverRight(calls, ip) && KeepsCalling(calls, ip, cfg.stateMax)
    requires k < |Failures(cfg, EMPTY, calls, ip)|
    requires Failures(cfg, EMPTY, calls, ip)[k] - Failures(cfg, EMPTY, calls, ip)[0] <= period
    ensures k + 1 <= FirstLocking(cfg) + 1 + (period / cfg.lockoutSecs).Floor
  {
    WrongIsNeverLetIn(cfg, calls, ip);
    RateBoundFromCalls(cfg, calls, ip, period, k);
  }
}
