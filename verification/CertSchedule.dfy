/** Certificate rotation over time: which check intervals keep the active certificate from
    ever expiring, and how long a successor is published before it takes over
    (internal/crypto/cert_rotation.go, certificate.go). Checks sign with the primary key;
    no calls fail and no administrator intervenes. */
module CertSchedule {
  import opened Wrappers
  import opened Clock
  import opened CertStore

  /** The slots after the checks at the given times. */
  function After(s: Slots, ts: seq<int>, cfg: Config, key: string): Slots
    decreases |ts|
  {
    if ts == [] then s
    else Check(After(s, ts[..|ts| - 1], cfg, key), [], ts[|ts| - 1], cfg, key, |ts|).slots
  }

  function ActionAt(s: Slots, ts: seq<int>, cfg: Config, key: string, i: nat): Action
    requires i < |ts|
  {
    Check(After(s, ts[..i], cfg, key), [], ts[i], cfg, key, i + 1).action
  }

  function Before(start: int, ts: seq<int>, i: nat): int
    requires i <= |ts|
  {
    if i == 0 then start else ts[i - 1]
  }

  /** Checks follow each other, and the start, within `gap`. */
  ghost predicate Schedule(start: int, ts: seq<int>, gap: int) {
    forall i :: 0 <= i < |ts| ==> Before(start, ts, i) <= ts[i] <= Before(start, ts, i) + gap
  }

  /** A self-signed active certificate outside the rotation window, and nothing staged. */
  predicate GoodStart(s: Slots, start: int, cfg: Config) {
    && s.active.Some? && s.active.value.source.SelfSigned? && s.next.None?
    && s.active.value.cert.notAfter - start > cfg.rotationWindowDays * DAY
  }

  predicate Alive(s: Slots, t: int) {
    s.active.Some? && t <= s.active.value.cert.notAfter
  }

  /** The active certificate is unexpired right up to each check, and so at every instant
      up to the last one. */
  ghost predicate NeverExpired(s: Slots, ts: seq<int>, cfg: Config, key: string) {
    forall i :: 0 <= i < |ts| ==> Alive(After(s, ts[..i], cfg, key), ts[i])
  }

  predicate FrequentEnough(cfg: Config, gapDays: int) {
    gapDays <= cfg.rotationWindowDays - cfg.promotionDelayDays && 2 * gapDays <= cfg.rotationWindowDays
  }

  /** Two windows fit into a certificate's two years, with a second lost to rounding. */
  predicate WindowFits(cfg: Config) {
    0 <= cfg.rotationWindowDays && 2 * cfg.rotationWindowDays < 730
  }

  /** Between checks: nothing staged and the active certificate outside the window as of
      `last`; or a successor staged at `tau`, inside the window by less than a gap, and
      promotion not yet due as of any later check. */
  predicate Between(s: Slots, last: int, tau: int, cfg: Config, gapDays: int) {
    && s.active.Some? && s.active.value.source.SelfSigned?
    && var a := s.active.value.cert.notAfter;
       && (s.next.None? ==> a - last > cfg.rotationWindowDays * DAY)
       && (s.next.Some?
           ==> && s.next.value.source.SelfSigned? && s.next.value.cert.notAfter == Truncate(tau + CERT_LIFETIME)
                            && (cfg.rotationWindowDays - gapDays) * DAY < a - tau <= cfg.rotationWindowDays * DAY
                            && tau <= last
                            && (last == tau || a - last > (cfg.rotationWindowDays - cfg.promotionDelayDays) * DAY))
  }

  lemma {:induction false} CheckKeepsBetween(s: Slots, last: int, tau: int, cfg: Config, gapDays: int, t: int,
                                             key: string, serial: nat)
    requires FrequentEnough(cfg, gapDays) && WindowFits(cfg) && Between(s, last, tau, cfg, gapDays)
             && last <= t <= last + gapDays * DAY
    ensures Alive(s, t)
    ensures var (s', action) := (Check(s, [], t, cfg, key, serial).slots, Check(s, [], t, cfg, key, serial).action);
            && Between(s', t, if action.StagedNext? then t else tau, cfg, gapDays)
            && (action.StagedNext? ==> s.next.None? && s'.next == Some(SelfSignedItem(t, key, serial)))
            && (action.Promoted? ==> && s.next.Some? && s'.active == s.next && s'.next.None?
                                     && t - tau > (cfg.promotionDelayDays - gapDays) * DAY
                                     && s'.active.value.cert.notAfter - t > cfg.rotationWindowDays * DAY)
            && (!action.StagedNext? && !action.Promoted? ==> s' == s)
  {
  }

  lemma {:induction false} AfterStep(s: Slots, ts: seq<int>, n: nat, cfg: Config, key: string)
    requires n < |ts|
    ensures After(s, ts[..n + 1], cfg, key) == Check(After(s, ts[..n], cfg, key), [], ts[n], cfg, key, n + 1).slots
  {
    hide Check;
    assert ts[..n + 1][..n] == ts[..n];
  }

  lemma {:induction false} Starts(s: Slots, start: int, cfg: Config, gapDays: int, key: string)
    requires GoodStart(s, start, cfg)
    ensures Between(s, start, start, cfg, gapDays) && s.next.None? && After(s, [], cfg, key) == s
  {
  }

  /** Where a run of checks stands after `n` of them; `k` is the check that staged what is
      staged now. */
  lemma {:induction false} RunStaysBetween(s: Slots, start: int, ts: seq<int>, cfg: Config, gapDays: int, key: string,
                                           n: nat) returns (k: nat)
    requires n <= |ts|
    requires FrequentEnough(cfg, gapDays) && WindowFits(cfg) && GoodStart(s, start, cfg)
             && Schedule(start, ts, gapDays * DAY)
    ensures k <= n
    ensures Between(After(s, ts[..n], cfg, key), Before(start, ts, n), if k < n then ts[k] else start, cfg, gapDays)
    ensures After(s, ts[..n], cfg, key).next.Some? ==>
              k < n && ActionAt(s, ts, cfg, key, k).StagedNext?
                && After(s, ts[..n], cfg, key).next == Some(SelfSignedItem(ts[k], key, k + 1))
  {
    hide Check, Between, FrequentEnough, WindowFits, Alive, SelfSignedItem, GoodStart, After;
    if n == 0 {
      k := 0;
      Starts(s, start, cfg, gapDays, key);
      assert ts[..0] == [];
    } else {
      k := RunStaysBetween(s, start, ts, cfg, gapDays, key, n - 1);
      var was := After(s, ts[..n - 1], cfg, key);
      AfterStep(s, ts, n - 1, cfg, key);
      CheckKeepsBetween(was, Before(start, ts, n - 1), if k < n - 1 then ts[k] else start, cfg, gapDays, ts[n - 1],
                        key, n);
      if Check(was, [], ts[n - 1], cfg, key, n).action.StagedNext? {
        k := n - 1;
      } else if k == n - 1 {
        k := n;
      }
    }
  }

  /** With checks close enough together, no run ever has an expired active certificate. */
  lemma {:induction false} FrequentChecksNeverExpire(s: Slots, start: int, ts: seq<int>, cfg: Config, gapDays: int,
                                                     key: string)
    requires FrequentEnough(cfg, gapDays) && WindowFits(cfg) && GoodStart(s, start, cfg)
             && Schedule(start, ts, gapDays * DAY)
    ensures NeverExpired(s, ts, cfg, key)
  {
    hide Check, Between, FrequentEnough, WindowFits, GoodStart, After;
    forall i | 0 <= i < |ts| ensures Alive(After(s, ts[..i], cfg, key), ts[i]) {
      var k := RunStaysBetween(s, start, ts, cfg, gapDays, key, i);
      CheckKeepsBetween(After(s, ts[..i], cfg, key), Before(start, ts, i), if k < i then ts[k] else start, cfg,
                        gapDays, ts[i], key, i + 1);
    }
  }

  /** Every promoted certificate was staged by an earlier check of the run, and published
      for more than the promotion delay less one gap; the new active certificate starts
      outside the rotation window. */
  lemma {:induction false} PromotedWasPublished(s: Slots, start: int, ts: seq<int>, cfg: Config, gapDays: int,
                                                key: string, n: nat) returns (k: nat)
    requires FrequentEnough(cfg, gapDays) && WindowFits(cfg) && GoodStart(s, start, cfg)
             && Schedule(start, ts, gapDays * DAY)
    requires n < |ts| && ActionAt(s, ts, cfg, key, n).Promoted?
    ensures k < n && ActionAt(s, ts, cfg, key, k).StagedNext?
    ensures var promoted := After(s, ts[..n + 1], cfg, key).active;
            && promoted == Some(SelfSignedItem(ts[k], key, k + 1))
            && ts[n] - ts[k] > (cfg.promotionDelayDays - gapDays) * DAY
            && promoted.value.cert.notAfter - ts[n] > cfg.rotationWindowDays * DAY
  {
    hide Check, Between, FrequentEnough, WindowFits, GoodStart, After;
    k := RunStaysBetween(s, start, ts, cfg, gapDays, key, n);
    CheckKeepsBetween(After(s, ts[..n], cfg, key), Before(start, ts, n), if k < n then ts[k] else start, cfg, gapDays,
                      ts[n], key, n + 1);
    AfterStep(s, ts, n, cfg, key);
  }

  // ---------- The bound is exact ----------

  ghost predicate AlwaysSafe(cfg: Config, gapDays: int, key: string) {
    forall s: Slots, start: int, ts: seq<int> ::
      GoodStart(s, start, cfg) && Schedule(start, ts, gapDays * DAY) ==> NeverExpired(s, ts, cfg, key)
  }

  /** Just outside the window at time 0. */
  function EdgeStart(cfg: Config): Slots {
    Slots(Some(CertItem(Cert(0, cfg.rotationWindowDays * DAY + 1, ""), SelfSigned, "")), None, None)
  }

  /** One check too early to stage, the next too late: two gaps longer than the window. */
  lemma {:induction false} TwoGapsTooLong(cfg: Config, gapDays: int, key: string)
    requires 0 <= cfg.rotationWindowDays && 1 <= gapDays && 2 * gapDays > cfg.rotationWindowDays
    ensures !AlwaysSafe(cfg, gapDays, key)
  {
    var s := EdgeStart(cfg);
    var ts := [gapDays * DAY, 2 * gapDays * DAY];
    assert Schedule(0, ts, gapDays * DAY);
    assert ts[..0] == [];
    AfterStep(s, ts, 0, cfg, key);
    FirstCheckOnlyStages(cfg, gapDays * DAY, key);
    assert !(Alive(After(s, ts[..0], cfg, key), ts[0]) && Alive(After(s, ts[..1], cfg, key), ts[1]));
    assert !NeverExpired(s, ts, cfg, key);
  }

  lemma {:induction false} FirstCheckOnlyStages(cfg: Config, t: int, key: string)
    ensures Check(EdgeStart(cfg), [], t, cfg, key, 1).slots.active == EdgeStart(cfg).active
  {
  }

  /** `m` daily checks, then one after a full gap. */
  function DailyThenGap(m: nat, gapDays: int): seq<int> {
    seq(m + 1, i => if i < m then (i + 1) * DAY else (m + gapDays) * DAY)
  }

  lemma {:induction false} DailyThenGapTimes(m: nat, gapDays: int)
    requires 1 <= gapDays
    ensures var ts := DailyThenGap(m, gapDays);
            && |ts| == m + 1 && (forall i :: 0 <= i < m ==> ts[i] == (i + 1) * DAY) && ts[m] == (m + gapDays) * DAY
            && Schedule(0, ts, gapDays * DAY)
  {
    var ts := DailyThenGap(m, gapDays);
    forall i | 0 <= i < |ts| ensures Before(0, ts, i) == i * DAY && ts[i] in {(i + 1) * DAY, (i + gapDays) * DAY} {}
    forall i | 0 <= i < |ts| ensures Before(0, ts, i) <= ts[i] <= Before(0, ts, i) + gapDays * DAY {
      DistributeDays(i, 1);
      DistributeDays(i, gapDays);
    }
  }

  lemma {:induction false} DistributeDays(a: int, b: int)
    ensures (a + b) * DAY == a * DAY + b * DAY
    ensures b >= 1 ==> b * DAY >= DAY
  {
  }

  lemma {:induction false} EdgeIsGood(cfg: Config)
    ensures GoodStart(EdgeStart(cfg), 0, cfg)
  {
  }

  lemma {:induction false} ExpiresInGap(cfg: Config, m: int, gapDays: int)
    requires m + gapDays > cfg.rotationWindowDays
    ensures (m + gapDays) * DAY > EdgeStart(cfg).active.value.cert.notAfter
  {
  }

  lemma {:induction false} DailyChecksWait(cfg: Config, ts: seq<int>, key: string, n: nat)
    requires n <= |ts| && n <= cfg.promotionDelayDays && n <= cfg.rotationWindowDays
    requires forall i :: 0 <= i < n ==> ts[i] == (i + 1) * DAY
    ensures After(EdgeStart(cfg), ts[..n], cfg, key).active == EdgeStart(cfg).active
  {
    if n == 0 {
    } else {
      DailyChecksWait(cfg, ts, key, n - 1);
      AfterStep(EdgeStart(cfg), ts, n - 1, cfg, key);
    }
  }

  /** A check just before promotion is due, the next after expiry: a gap longer than what
      the delay leaves of the window. */
  lemma {:induction false} LastGapTooLong(cfg: Config, gapDays: int, key: string)
    requires 0 <= cfg.rotationWindowDays && 1 <= gapDays && 2 * gapDays <= cfg.rotationWindowDays
    requires gapDays > cfg.rotationWindowDays - cfg.promotionDelayDays
    ensures !AlwaysSafe(cfg, gapDays, key)
  {
    var m := if cfg.promotionDelayDays <= cfg.rotationWindowDays then cfg.promotionDelayDays
      else cfg.rotationWindowDays;
    hide Check, After;
    var ts := DailyThenGap(m, gapDays);
    hide Schedule, DailyThenGap, GoodStart;
    DailyThenGapTimes(m, gapDays);
    EdgeIsGood(cfg);
    DailyChecksWait(cfg, ts, key, m);
    ExpiresInGap(cfg, m, gapDays);
    assert !Alive(After(EdgeStart(cfg), ts[..m], cfg, key), ts[m]);
    assert !NeverExpired(EdgeStart(cfg), ts, cfg, key);
  }

  /** The active certificate never expires, on any schedule with checks at most `gapDays`
      apart, if and only if a gap fits both between the promotion threshold and expiry and
      twice into the window. */
  lemma {:induction false} NeverExpiresIff(cfg: Config, gapDays: int, key: string)
    requires WindowFits(cfg) && 1 <= gapDays
    ensures AlwaysSafe(cfg, gapDays, key) <==> FrequentEnough(cfg, gapDays)
  {
    hide NeverExpired, Schedule, GoodStart, After;
    if FrequentEnough(cfg, gapDays) {
      forall s: Slots, start: int, ts: seq<int> | GoodStart(s, start, cfg) && Schedule(start, ts, gapDays * DAY)
        ensures NeverExpired(s, ts, cfg, key)
      {
        FrequentChecksNeverExpire(s, start, ts, cfg, gapDays, key);
      }
    } else if 2 * gapDays > cfg.rotationWindowDays {
      TwoGapsTooLong(cfg, gapDays, key);
    } else {
      LastGapTooLong(cfg, gapDays, key);
    }
  }

  // ---------- After a lost delete ----------

  /** The active certificate, outside the window, staged as its own successor. */
  predicate StaleStart(s: Slots, start: int, cfg: Config) {
    StaleNext(s) && s.active.value.source.SelfSigned?
      && s.active.value.cert.notAfter - start > cfg.rotationWindowDays * DAY
  }

  /** Not yet due; just replaced by itself; a real successor staged. */
  predicate Stale(s: Slots, last: int, cfg: Config) {
    StaleNext(s) && s.active.value.source.SelfSigned?
    && s.active.value.cert.notAfter - last > (cfg.rotationWindowDays - cfg.promotionDelayDays) * DAY
  }

  predicate Renewed(s: Slots, last: int, cfg: Config, gapDays: int) {
    && s.active.Some? && s.active.value.source.SelfSigned? && s.next.None?
    && (cfg.rotationWindowDays - cfg.promotionDelayDays - gapDays) * DAY
       < s.active.value.cert.notAfter - last <= (cfg.rotationWindowDays - cfg.promotionDelayDays) * DAY
  }

  predicate LateStaged(s: Slots, last: int, cfg: Config, gapDays: int) {
    && s.active.Some? && s.active.value.source.SelfSigned? && s.next.Some? && s.next.value.source.SelfSigned?
    && s.next.value.cert.notAfter == Truncate(last + CERT_LIFETIME)
    && (cfg.rotationWindowDays - cfg.promotionDelayDays - 2 * gapDays) * DAY
       < s.active.value.cert.notAfter - last <= (cfg.rotationWindowDays - cfg.promotionDelayDays) * DAY
  }

  predicate AfterStale(s: Slots, last: int, tau: int, cfg: Config, gapDays: int) {
    Stale(s, last, cfg) || Renewed(s, last, cfg, gapDays) || LateStaged(s, last, cfg, gapDays)
      || Between(s, last, tau, cfg, gapDays)
  }

  /** Three gaps fit between the promotion threshold and expiry. */
  predicate FrequentAfterStale(cfg: Config, gapDays: int) {
    3 * gapDays <= cfg.rotationWindowDays - cfg.promotionDelayDays
  }

  lemma {:induction false} CheckKeepsAfterStale(s: Slots, last: int, tau: int, cfg: Config, gapDays: int, t: int,
                                                key: string, serial: nat)
    returns (tau': int)
    requires 0 <= gapDays && 0 <= cfg.promotionDelayDays && FrequentAfterStale(cfg, gapDays) && WindowFits(cfg)
    requires AfterStale(s, last, tau, cfg, gapDays) && last <= t <= last + gapDays * DAY
    ensures Alive(s, t) && AfterStale(Check(s, [], t, cfg, key, serial).slots, t, tau', cfg, gapDays)
  {
    tau' := t;
    if Stale(s, last, cfg) {
      StaleNextPromotesItself(s, t, cfg, key, serial);
    } else if Renewed(s, last, cfg, gapDays) {
      RenewedStages(s, last, cfg, gapDays, t, key, serial);
    } else if LateStaged(s, last, cfg, gapDays) {
      LateStagedPromotes(s, last, cfg, gapDays, t, key, serial);
    } else {
      CheckKeepsBetween(s, last, tau, cfg, gapDays, t, key, serial);
      tau' := if Check(s, [], t, cfg, key, serial).action.StagedNext? then t else tau;
    }
  }

  lemma {:induction false} RenewedStages(s: Slots, last: int, cfg: Config, gapDays: int, t: int, key: string,
                                         serial: nat)
    requires 0 <= gapDays && 0 <= cfg.promotionDelayDays && FrequentAfterStale(cfg, gapDays)
    requires Renewed(s, last, cfg, gapDays) && last <= t <= last + gapDays * DAY
    ensures Alive(s, t) && LateStaged(Check(s, [], t, cfg, key, serial).slots, t, cfg, gapDays)
  {
  }

  lemma {:induction false} LateStagedPromotes(s: Slots, last: int, cfg: Config, gapDays: int, t: int, key: string,
                                              serial: nat)
    requires 0 <= gapDays && 0 <= cfg.promotionDelayDays && FrequentAfterStale(cfg, gapDays) && WindowFits(cfg)
    requires LateStaged(s, last, cfg, gapDays) && last <= t <= last + gapDays * DAY
    ensures Alive(s, t) && Between(Check(s, [], t, cfg, key, serial).slots, t, t, cfg, gapDays)
  {
  }

  lemma {:induction false} RunStaysAfterStale(s: Slots, start: int, ts: seq<int>, cfg: Config, gapDays: int,
                                              key: string, n: nat)
    returns (tau: int)
    requires n <= |ts| && 0 <= gapDays && 0 <= cfg.promotionDelayDays
    requires FrequentAfterStale(cfg, gapDays) && WindowFits(cfg) && StaleStart(s, start, cfg)
             && Schedule(start, ts, gapDays * DAY)
    ensures AfterStale(After(s, ts[..n], cfg, key), Before(start, ts, n), tau, cfg, gapDays)
  {
    hide Check, AfterStale, Alive, After;
    if n == 0 {
      tau := start;
      StaleStartIsStale(s, start, cfg, gapDays, key);
      assert ts[..0] == [];
    } else {
      tau := RunStaysAfterStale(s, start, ts, cfg, gapDays, key, n - 1);
      AfterStep(s, ts, n - 1, cfg, key);
      tau := CheckKeepsAfterStale(After(s, ts[..n - 1], cfg, key), Before(start, ts, n - 1), tau, cfg, gapDays,
                                  ts[n - 1], key, n);
    }
  }

  lemma {:induction false} StaleStartIsStale(s: Slots, start: int, cfg: Config, gapDays: int, key: string)
    requires StaleStart(s, start, cfg) && 0 <= cfg.promotionDelayDays
    ensures AfterStale(s, start, start, cfg, gapDays) && After(s, [], cfg, key) == s
  {
  }

  ghost predicate SafeAfterStale(cfg: Config, gapDays: int, key: string) {
    forall s: Slots, start: int, ts: seq<int> ::
      StaleStart(s, start, cfg) && Schedule(start, ts, gapDays * DAY) ==> NeverExpired(s, ts, cfg, key)
  }

  /** What a lost delete costs: from a certificate staged as its own successor, no schedule
      lets the active certificate expire if and only if three gaps, not one, fit between the
      promotion threshold and expiry. */
  lemma {:induction false} SafeAfterStaleIff(cfg: Config, gapDays: int, key: string)
    requires WindowFits(cfg) && 1 <= gapDays && 0 <= cfg.promotionDelayDays <= cfg.rotationWindowDays
    ensures SafeAfterStale(cfg, gapDays, key) <==> FrequentAfterStale(cfg, gapDays)
  {
    hide Schedule, StaleStart, After, Check, Alive, AfterStale;
    if FrequentAfterStale(cfg, gapDays) {
      forall s: Slots, start: int, ts: seq<int> | StaleStart(s, start, cfg) && Schedule(start, ts, gapDays * DAY)
        ensures NeverExpired(s, ts, cfg, key)
      {
        forall i | 0 <= i < |ts| ensures Alive(After(s, ts[..i], cfg, key), ts[i]) {
          var tau := RunStaysAfterStale(s, start, ts, cfg, gapDays, key, i);
          ScheduleAt(start, ts, gapDays * DAY, i);
          var _ := CheckKeepsAfterStale(After(s, ts[..i], cfg, key), Before(start, ts, i), tau, cfg, gapDays, ts[i],
                                        key, i + 1);
        }
      }
    } else {
      ThreeGapsTooLong(cfg, gapDays, key);
    }
  }

  lemma {:induction false} ScheduleAt(start: int, ts: seq<int>, gap: int, i: nat)
    requires i < |ts| && Schedule(start, ts, gap)
    ensures Before(start, ts, i) <= ts[i] <= Before(start, ts, i) + gap
  {
  }

  function StaleEdge(cfg: Config): Slots {
    EdgeStart(cfg).(next := EdgeStart(cfg).active)
  }

  function DailyThenGaps(m: nat, gapDays: int): seq<int> {
    DailyThenGap(m, gapDays) + [(m + 2 * gapDays) * DAY, (m + 3 * gapDays) * DAY]
  }

  lemma {:induction false} ScheduleExtended(start: int, ts: seq<int>, t: int, u: int, gap: int)
    requires ts != [] && Schedule(start, ts, gap) && ts[|ts| - 1] <= t <= ts[|ts| - 1] + gap && t <= u <= t + gap
    ensures Schedule(start, ts + [t, u], gap)
  {
    var us := ts + [t, u];
    forall i | 0 <= i < |us| ensures Before(start, us, i) <= us[i] <= Before(start, us, i) + gap {
      if i < |ts| { assert Before(start, us, i) == Before(start, ts, i) && us[i] == ts[i]; }
    }
  }

  lemma {:induction false} DailyThenGapsTimes(m: nat, gapDays: int)
    requires 1 <= gapDays
    ensures var ts := DailyThenGaps(m, gapDays);
            && |ts| == m + 3 && (forall i :: 0 <= i < m ==> ts[i] == (i + 1) * DAY)
            && ts[m] == (m + gapDays) * DAY && ts[m + 1] == (m + 2 * gapDays) * DAY
            && ts[m + 2] == (m + 3 * gapDays) * DAY
            && Schedule(0, ts, gapDays * DAY)
  {
    hide DailyThenGap, Schedule;
    DailyThenGapTimes(m, gapDays);
    DistributeDays(m + gapDays, gapDays);
    DistributeDays(m + 2 * gapDays, gapDays);
    ScheduleExtended(0, DailyThenGap(m, gapDays), (m + 2 * gapDays) * DAY, (m + 3 * gapDays) * DAY, gapDays * DAY);
  }

  lemma {:induction false} DailyChecksWaitStale(cfg: Config, ts: seq<int>, key: string, n: nat)
    requires n <= |ts| && n <= cfg.promotionDelayDays
    requires forall i :: 0 <= i < n ==> ts[i] == (i + 1) * DAY
    ensures After(StaleEdge(cfg), ts[..n], cfg, key) == StaleEdge(cfg)
  {
    if n == 0 {
      assert ts[..0] == [];
    } else {
      DailyChecksWaitStale(cfg, ts, key, n - 1);
      AfterStep(StaleEdge(cfg), ts, n - 1, cfg, key);
      StaleNextPromotesItself(StaleEdge(cfg), n * DAY, cfg, key, n);
    }
  }

  /** The last wait, the check that promotes the certificate onto itself and the check that
      stages its successor leave it active until it has expired. */
  lemma {:induction false} ThreeGapsTooLong(cfg: Config, gapDays: int, key: string)
    requires 1 <= gapDays && 0 <= cfg.promotionDelayDays <= cfg.rotationWindowDays && !FrequentAfterStale(cfg, gapDays)
    ensures !SafeAfterStale(cfg, gapDays, key)
  {
    hide Check, After, Schedule, DailyThenGaps;
    var (s, m) := (StaleEdge(cfg), cfg.promotionDelayDays);
    var ts := DailyThenGaps(m, gapDays);
    DailyThenGapsTimes(m, gapDays);
    DailyChecksWaitStale(cfg, ts, key, m);
    var (s1, s2) := (After(s, ts[..m + 1], cfg, key), After(s, ts[..m + 2], cfg, key));
    AfterStep(s, ts, m, cfg, key);
    AfterStep(s, ts, m + 1, cfg, key);
    StaleNextPromotesItself(s, ts[m], cfg, key, m + 1);
    NothingStagedKeepsActive(s1, ts[m + 1], cfg, key, m + 2);
    ExpiresInGap(cfg, m, 3 * gapDays);
    assert StaleStart(s, 0, cfg);
    if s1.next.None? {
      assert !Alive(s2, ts[m + 2]);
    }
    assert !NeverExpired(s, ts, cfg, key);
  }

  lemma {:induction false} NothingStagedKeepsActive(s: Slots, t: int, cfg: Config, key: string, serial: nat)
    requires s.active.Some? && s.next.None?
    ensures Check(s, [], t, cfg, key, serial).slots.active == s.active
  {
  }

  /** And what it costs relying parties: the first real successor staged afterwards is
      promoted by the very next check, whatever the promotion delay. */
  lemma {:induction false} SuccessorPublishedForOneGap(s: Slots, start: int, ts: seq<int>, cfg: Config, gap: int,
                                                       key: string, n: nat)
    requires StaleStart(s, start, cfg) && 0 <= cfg.promotionDelayDays && Schedule(start, ts, gap)
    requires n + 1 < |ts| && ActionAt(s, ts, cfg, key, n).StagedNext?
    requires forall i :: 0 <= i < n ==> !ActionAt(s, ts, cfg, key, i).StagedNext?
    ensures ActionAt(s, ts, cfg, key, n + 1).Promoted?
    ensures After(s, ts[..n + 2], cfg, key).active == After(s, ts[..n + 1], cfg, key).next
            == Some(SelfSignedItem(ts[n], key, n + 1))
  {
    hide After, Check;
    NothingRealStagedBefore(s, start, ts, cfg, gap, key, n);
    AfterStep(s, ts, n, cfg, key);
    AfterStep(s, ts, n + 1, cfg, key);
    ScheduleAt(start, ts, gap, n);
    ScheduleAt(start, ts, gap, n + 1);
    StagedThenPromoted(After(s, ts[..n], cfg, key), Before(start, ts, n), cfg, ts[n], ts[n + 1], key, n + 1, n + 2);
  }

  /** Before a successor is staged: the certificate is its own successor, or due. */
  predicate Unstaged(s: Slots, last: int, cfg: Config) {
    && s.active.Some? && s.active.value.source.SelfSigned?
    && (StaleNext(s)
        || (s.next.None?
            && s.active.value.cert.notAfter - last <= (cfg.rotationWindowDays - cfg.promotionDelayDays) * DAY))
  }

  lemma {:induction false} NothingRealStagedBefore(s: Slots, start: int, ts: seq<int>, cfg: Config, gap: int,
                                                   key: string, n: nat)
    requires n <= |ts| && StaleStart(s, start, cfg) && 0 <= cfg.promotionDelayDays && Schedule(start, ts, gap)
    requires forall i :: 0 <= i < n ==> !ActionAt(s, ts, cfg, key, i).StagedNext?
    ensures Unstaged(After(s, ts[..n], cfg, key), Before(start, ts, n), cfg)
  {
    hide Check, After;
    if n == 0 {
      StaleStartIsStale(s, start, cfg, 0, key);
      assert ts[..0] == [];
    } else {
      NothingRealStagedBefore(s, start, ts, cfg, gap, key, n - 1);
      AfterStep(s, ts, n - 1, cfg, key);
      ScheduleAt(start, ts, gap, n - 1);
      assert !ActionAt(s, ts, cfg, key, n - 1).StagedNext?;
      UnstagedStep(After(s, ts[..n - 1], cfg, key), Before(start, ts, n - 1), cfg, ts[n - 1], key, n);
    }
  }

  lemma {:induction false} UnstagedStep(s: Slots, last: int, cfg: Config, t: int, key: string, serial: nat)
    requires Unstaged(s, last, cfg) && last <= t && 0 <= cfg.promotionDelayDays
             && !Check(s, [], t, cfg, key, serial).action.StagedNext?
    ensures Unstaged(Check(s, [], t, cfg, key, serial).slots, t, cfg)
  {
  }

  lemma {:induction false} StagedThenPromoted(s: Slots, last: int, cfg: Config, t: int, t': int, key: string,
                                              serial: nat, serial': nat)
    requires Unstaged(s, last, cfg) && last <= t <= t' && 0 <= cfg.promotionDelayDays
             && Check(s, [], t, cfg, key, serial).action.StagedNext?
    ensures var staged := Check(s, [], t, cfg, key, serial).slots;
            && staged.next == Some(SelfSignedItem(t, key, serial))
            && Check(staged, [], t', cfg, key, serial').action.Promoted?
            && Check(staged, [], t', cfg, key, serial').slots.active == staged.next
  {
  }
}
